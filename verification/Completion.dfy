/**
 The completion index as the program keeps it: an array of bucket chains updated in place.
 */
module Completion {
  import opened CompletionSpec
  import opened Helpers

  class HashTable {
    const hash: Hash
    const buckets: array<seq<Bucket>>
    ghost var words: seq<string>   // the words added since the last clean

    ghost predicate Valid()
      reads this, buckets
    {
      Represents(hash, buckets[..], words, [], 0)
    }

    constructor (hash: Hash, size: nat)
      requires size >= 1
      ensures Valid() && words == [] && this.hash == hash && buckets.Length == size && fresh(buckets)
    {
      this.hash := hash;
      buckets := new seq<Bucket>[size](i => []);
      words := [];
      new;
      EmptyRepresents(hash, buckets[..]);
    }

    /** completion_hash_find within the chain that the key hashes to. */
    method Locate(key: string) returns (i: nat, j: nat)
      requires GoodTable(hash, buckets[..])
      ensures i == SlotOf(hash, buckets[..], key) && j == FindIn(buckets[i], key)
    {
      var h := hash(key);
      i := h % buckets.Length;
      var chain := buckets[i];
      assert GoodChain(hash, |buckets[..]|, i, buckets[..][i]);
      j := 0;
      while j < |chain| && !(chain[j].h == h && chain[j].keyLength == |key| && chain[j].word[..|key|] == key)
        invariant j <= |chain| && forall k :: 0 <= k < j ==> Key(chain[k]) != key
      {
        j := j + 1;
      }
    }

    /** completion_hash_update(ht, word, n, word). */
    method Update(word: string, n: nat) returns (ok: bool)
      requires GoodTable(hash, buckets[..]) && n <= |word|
      modifies buckets
      ensures ok <==> n > 0
      ensures !ok ==> buckets[..] == old(buckets[..])
      ensures ok ==> buckets[..] == Updated(hash, old(buckets[..]), word, n)
    {
      if n == 0 {
        return false;
      }
      ghost var table := buckets[..];
      var i, j := Locate(word[..n]);
      var chain := buckets[i];
      if j < |chain| {
        buckets[i] := chain[j := chain[j].(data := [word] + chain[j].data, count := chain[j].count + 1)];
      } else {
        buckets[i] := [Bucket(hash(word[..n]), word, n, 1, [word])] + chain;
      }
      assert buckets[..] == table[i := UpdatedChain(hash, table[i], word, n)];
      ok := true;
    }

    /** add_word: every non-empty prefix of the word becomes a key. */
    method AddWord(word: string)
      requires Valid()
      modifies this, buckets
      ensures Valid() && words == old(words) + [word]
    {
      NoPrefixIn(hash, buckets[..], words, word);
      var n := 0;
      while n < |word|
        invariant n <= |word| && words == old(words)
        invariant Represents(hash, buckets[..], words, word, n)
      {
        UpdateRepresents(hash, buckets[..], words, word, n);
        var ok := Update(word, n + 1);
        n := n + 1;
      }
      AllPrefixesIn(hash, buckets[..], words, word);
      words := words + [word];
    }

    /** completion_hash_clean. */
    method Clean()
      requires Valid()
      modifies this, buckets
      ensures Valid() && words == []
    {
      forall i | 0 <= i < buckets.Length {
        buckets[i] := [];
      }
      words := [];
      EmptyRepresents(hash, buckets[..]);
    }

    /** completion_hash_find: the bucket lists the words that start with the key, if there are any. */
    method FindBucket(key: string) returns (b: Option<Bucket>)
      requires Valid()
      ensures b.None? <==> key == [] || Matches(words, key) == []
      ensures b.Some? ==> Key(b.value) == key && b.value.data == Matches(words, key) && b.value.count == |b.value.data|
                          && b.value.word == b.value.data[|b.value.data| - 1]
    {
      var i, j := Locate(key);
      assert GoodChain(hash, |buckets[..]|, i, buckets[..][i]);
      if j == |buckets[i]| {
        b := None;
      } else {
        b := Some(buckets[i][j]);
        assert GoodBucket(hash, buckets[i][j]);
      }
      if key != [] {
        assert Stored(hash, buckets[..], key) == Expected(words, [], 0, key) == Matches(words, key);
      }
    }

    /** find_all_matches. */
    method FindAllMatches(key: string) returns (b: Option<Bucket>, length: nat)
      requires Valid()
      ensures b.None? <==> key == [] || Matches(words, key) == []
      ensures b.Some? ==> Key(b.value) == key && b.value.data == Matches(words, key) && b.value.count == |b.value.data|
      ensures length == if b.Some? then |key| else 0
    {
      b := FindBucket(key);
      length := if b.Some? then |key| else 0;
    }

    /**
     find_longest_match: the longest prefix shared by all words that start with the key, found by
     comparing the counts of the buckets for longer and longer prefixes of one of them.
     */
    method FindLongestMatch(key: string) returns (b: Option<Bucket>, length: nat)
      requires Valid()
      ensures b.None? <==> key == [] || Matches(words, key) == []
      ensures b.None? ==> length == 0
      ensures b.Some? ==> |key| <= length && LongestShared(Matches(words, key), length)
                          && Key(b.value) == Matches(words, key)[0][..length] && b.value.data == Matches(words, key)
    {
      b := FindBucket(key);
      length := 0;
      if b.None? {
        return;
      }
      var count := b.value.count;
      var s := b.value.data[0];
      length := |key|;
      ghost var m := Matches(words, key);
      MatchesMember(words, key, s);
      SharedByAll(words, key, key);
      while length < |s|
        invariant |key| <= length <= |s| && key <= s[..length]
        invariant b.Some? && Key(b.value) == s[..length] && b.value.data == m == Matches(words, s[..length])
      {
        MatchesMember(words, s[..length + 1], s);
        MatchesLonger(words, key, s[..length + 1]);
        var next := FindBucket(s[..length + 1]);
        if next.value.count < count {
          var w := NotSharedByAll(words, key, s[..length + 1]);
          break;
        }
        b := next;
        length := length + 1;
      }
      SharedByAll(words, key, s[..length]);
    }

    /**
     completion_hash_exists, which compares the whole word that created the bucket: it holds
     exactly when the oldest stored word that starts with the key is the key itself.
     */
    method Exists(key: string) returns (found: bool)
      requires Valid()
      ensures found <==> key != [] && Matches(words, key) != [] && Matches(words, key)[|Matches(words, key)| - 1] == key
    {
      var b := FindBucket(key);
      found := b.Some? && b.value.word == key;
    }
  }

  lemma EmptyRepresents(hash: Hash, table: Table)
    requires table != [] && forall i :: 0 <= i < |table| ==> table[i] == []
    ensures Represents(hash, table, [], [], 0)
  {
    assert GoodTable(hash, table);
  }
}
