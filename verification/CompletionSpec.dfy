/**
 The completion index as a value: a table of chains of buckets, one bucket for every non-empty
 prefix of every word, and what it means for the table to represent a list of words.
 */
module CompletionSpec {

  /** A bucket stores the word that created it, how much of it is the key, and its entries, newest first. */
  datatype Bucket = Bucket(h: nat, word: string, keyLength: nat, count: nat, data: seq<string>)

  type Hash = string -> nat

  type Table = seq<seq<Bucket>>

  function Key(b: Bucket): string {
    if b.keyLength <= |b.word| then b.word[..b.keyLength] else b.word
  }

  /** The words that start with the key, newest first. */
  function Matches(words: seq<string>, key: string): seq<string> {
    if words == [] then []
    else
      var last := |words| - 1;
      (if key <= words[last] then [words[last]] else []) + Matches(words[..last], key)
  }

  /** The entries expected under a key when n prefixes of one more word have been entered. */
  function Expected(words: seq<string>, word: string, n: nat, key: string): seq<string> {
    (if key <= word && |key| <= n then [word] else []) + Matches(words, key)
  }

  function SlotOf(hash: Hash, table: Table, key: string): nat
    requires table != []
    ensures SlotOf(hash, table, key) < |table|
  {
    hash(key) % |table|
  }

  /** The position in a chain of the bucket for a key, or the length of the chain. */
  function FindIn(chain: seq<Bucket>, key: string): (j: nat)
    ensures j <= |chain|
    ensures j < |chain| ==> Key(chain[j]) == key
    ensures forall k :: 0 <= k < j ==> Key(chain[k]) != key
  {
    if chain == [] || Key(chain[0]) == key then 0 else 1 + FindIn(chain[1..], key)
  }

  predicate GoodBucket(hash: Hash, b: Bucket) {
    && 0 < b.keyLength <= |b.word|
    && b.h == hash(Key(b))
    && b.count == |b.data| > 0
    && b.word == b.data[|b.data| - 1]
  }

  predicate DistinctKeys(chain: seq<Bucket>) {
    forall j, k :: 0 <= j < k < |chain| ==> Key(chain[j]) != Key(chain[k])
  }

  predicate GoodChain(hash: Hash, size: nat, i: nat, chain: seq<Bucket>)
    requires size > 0
  {
    && DistinctKeys(chain)
    && forall j :: 0 <= j < |chain| ==> GoodBucket(hash, chain[j]) && chain[j].h % size == i
  }

  predicate GoodTable(hash: Hash, table: Table) {
    && table != []
    && forall i :: 0 <= i < |table| ==> GoodChain(hash, |table|, i, table[i])
  }

  function StoredIn(chain: seq<Bucket>, key: string): seq<string> {
    var j := FindIn(chain, key);
    if j < |chain| then chain[j].data else []
  }

  /** The entries stored under a key. */
  function Stored(hash: Hash, table: Table, key: string): seq<string>
    requires table != []
  {
    StoredIn(table[SlotOf(hash, table, key)], key)
  }

  /** The table is well formed and stores exactly the expected entries under every key. */
  ghost predicate Represents(hash: Hash, table: Table, words: seq<string>, word: string, n: nat) {
    && GoodTable(hash, table)
    && forall key :: key != [] ==> Stored(hash, table, key) == Expected(words, word, n, key)
  }

  /** completion_hash_update within a chain, for the first n bytes of a word. */
  function UpdatedChain(hash: Hash, chain: seq<Bucket>, word: string, n: nat): seq<Bucket>
    requires 0 < n <= |word|
  {
    var j := FindIn(chain, word[..n]);
    if j < |chain| then chain[j := chain[j].(data := [word] + chain[j].data, count := chain[j].count + 1)]
    else [Bucket(hash(word[..n]), word, n, 1, [word])] + chain
  }

  function Updated(hash: Hash, table: Table, word: string, n: nat): Table
    requires table != [] && 0 < n <= |word|
  {
    var i := SlotOf(hash, table, word[..n]);
    table[i := UpdatedChain(hash, table[i], word, n)]
  }

  lemma UpdatedChainKeys(hash: Hash, chain: seq<Bucket>, word: string, n: nat)
    requires 0 < n <= |word| && DistinctKeys(chain)
    ensures DistinctKeys(UpdatedChain(hash, chain, word, n))
  {
    var chain' := UpdatedChain(hash, chain, word, n);
    if FindIn(chain, word[..n]) < |chain| {
      assert forall k :: 0 <= k < |chain| ==> Key(chain'[k]) == Key(chain[k]);
    } else {
      assert Key(chain'[0]) == word[..n];
      assert forall k :: 1 <= k < |chain'| ==> chain'[k] == chain[k - 1];
    }
  }

  lemma UpdatedChainGood(hash: Hash, size: nat, i: nat, chain: seq<Bucket>, word: string, n: nat)
    requires 0 < n <= |word| && size > 0 && hash(word[..n]) % size == i && GoodChain(hash, size, i, chain)
    ensures GoodChain(hash, size, i, UpdatedChain(hash, chain, word, n))
  {
    UpdatedChainKeys(hash, chain, word, n);
    var chain' := UpdatedChain(hash, chain, word, n);
    var j := FindIn(chain, word[..n]);
    forall k | 0 <= k < |chain'|
      ensures GoodBucket(hash, chain'[k]) && chain'[k].h % size == i
    {
      if j == |chain| && k > 0 {
        assert chain'[k] == chain[k - 1];
      }
    }
  }

  lemma UpdatedGood(hash: Hash, table: Table, word: string, n: nat)
    requires GoodTable(hash, table) && 0 < n <= |word|
    ensures GoodTable(hash, Updated(hash, table, word, n))
  {
    var i := SlotOf(hash, table, word[..n]);
    UpdatedChainGood(hash, |table|, i, table[i], word, n);
  }

  lemma SameKeys(a: seq<Bucket>, b: seq<Bucket>, key: string)
    requires |a| == |b| && forall k :: 0 <= k < |a| ==> Key(a[k]) == Key(b[k])
    ensures FindIn(a, key) == FindIn(b, key)
  {
    var i, j := FindIn(a, key), FindIn(b, key);
    assert i < |a| ==> Key(a[i]) == Key(b[i]);
    assert j < |b| ==> Key(a[j]) == Key(b[j]);
  }

  /** A key found in the chain: its bucket has one more entry, the others are as they were. */
  lemma GrownChainStored(hash: Hash, chain: seq<Bucket>, word: string, n: nat, key: string)
    requires 0 < n <= |word| && DistinctKeys(chain) && FindIn(chain, word[..n]) < |chain|
    ensures StoredIn(UpdatedChain(hash, chain, word, n), key) ==
            (if key == word[..n] then [word] else []) + StoredIn(chain, key)
  {
    var chain' := UpdatedChain(hash, chain, word, n);
    assert forall k :: 0 <= k < |chain| ==> Key(chain'[k]) == Key(chain[k]);
    SameKeys(chain, chain', key);
  }

  lemma PrependedStored(b: Bucket, chain: seq<Bucket>, key: string)
    ensures StoredIn([b] + chain, key) == if Key(b) == key then b.data else StoredIn(chain, key)
  {
    assert ([b] + chain)[1..] == chain;
  }

  lemma UpdatedChainStored(hash: Hash, chain: seq<Bucket>, word: string, n: nat, key: string)
    requires 0 < n <= |word| && DistinctKeys(chain)
    ensures StoredIn(UpdatedChain(hash, chain, word, n), key) ==
            (if key == word[..n] then [word] else []) + StoredIn(chain, key)
  {
    if FindIn(chain, word[..n]) < |chain| {
      GrownChainStored(hash, chain, word, n, key);
    } else {
      PrependedStored(Bucket(hash(word[..n]), word, n, 1, [word]), chain, key);
    }
  }

  lemma UpdatedStored(hash: Hash, table: Table, word: string, n: nat, key: string)
    requires GoodTable(hash, table) && 0 < n <= |word|
    ensures Stored(hash, Updated(hash, table, word, n), key) ==
            (if key == word[..n] then [word] else []) + Stored(hash, table, key)
  {
    var i := SlotOf(hash, table, key);
    if i == SlotOf(hash, table, word[..n]) {
      assert GoodChain(hash, |table|, i, table[i]);
      UpdatedChainStored(hash, table[i], word, n, key);
    }
  }

  lemma ExpectedNext(words: seq<string>, word: string, n: nat, key: string)
    requires n < |word|
    ensures Expected(words, word, n + 1, key) ==
            (if key == word[..n + 1] then [word] else []) + Expected(words, word, n, key)
  {
    assert key <= word && |key| == n + 1 <==> key == word[..n + 1];
  }

  /** Entering one more prefix of a word. */
  lemma UpdateRepresents(hash: Hash, table: Table, words: seq<string>, word: string, n: nat)
    requires Represents(hash, table, words, word, n) && n < |word|
    ensures Represents(hash, Updated(hash, table, word, n + 1), words, word, n + 1)
  {
    UpdatedGood(hash, table, word, n + 1);
    var table' := Updated(hash, table, word, n + 1);
    forall key | key != []
      ensures Stored(hash, table', key) == Expected(words, word, n + 1, key)
    {
      UpdatedStored(hash, table, word, n + 1, key);
      ExpectedNext(words, word, n, key);
    }
  }

  /** When all prefixes of the word are in, the word has been added. */
  lemma AllPrefixesIn(hash: Hash, table: Table, words: seq<string>, word: string)
    requires Represents(hash, table, words, word, |word|)
    ensures Represents(hash, table, words + [word], [], 0)
  {
    forall key | key != []
      ensures Stored(hash, table, key) == Expected(words + [word], [], 0, key)
    {
      assert (words + [word])[..|words|] == words;
      assert Expected(words + [word], [], 0, key) == Matches(words + [word], key);
    }
  }

  lemma NoPrefixIn(hash: Hash, table: Table, words: seq<string>, word: string)
    requires Represents(hash, table, words, [], 0)
    ensures Represents(hash, table, words, word, 0)
  {
    forall key | key != []
      ensures Stored(hash, table, key) == Expected(words, word, 0, key)
    {
      assert Stored(hash, table, key) == Expected(words, [], 0, key);
    }
  }

  // ---------- Facts about the words that match ----------

  lemma {:induction false} MatchesMember(words: seq<string>, key: string, w: string)
    ensures w in Matches(words, key) <==> w in words && key <= w
  {
    if words == [] {
    } else {
      var last := |words| - 1;
      assert words == words[..last] + [words[last]];
      MatchesMember(words[..last], key, w);
    }
  }

  /** A longer key selects fewer words, and as many only if it selects the same ones. */
  lemma {:induction false} MatchesLonger(words: seq<string>, key: string, longer: string)
    requires key <= longer
    ensures |Matches(words, longer)| <= |Matches(words, key)|
    ensures |Matches(words, longer)| == |Matches(words, key)| ==> Matches(words, longer) == Matches(words, key)
  {
    if words == [] {
    } else {
      MatchesLonger(words[..|words| - 1], key, longer);
    }
  }

  /** The first n bytes of the newest match are the longest prefix that all matches share. */
  ghost predicate LongestShared(matches: seq<string>, n: nat) {
    && matches != [] && n <= |matches[0]|
    && (forall w :: w in matches ==> matches[0][..n] <= w)
    && (n < |matches[0]| ==> exists w :: w in matches && !(matches[0][..n + 1] <= w))
  }

  lemma SharedByAll(words: seq<string>, key: string, longer: string)
    requires key <= longer && Matches(words, longer) == Matches(words, key)
    ensures forall w :: w in Matches(words, key) ==> longer <= w
  {
    forall w | w in Matches(words, key)
      ensures longer <= w
    {
      MatchesMember(words, longer, w);
    }
  }

  lemma {:induction false} NotSharedByAll(words: seq<string>, key: string, longer: string) returns (w: string)
    requires key <= longer && |Matches(words, longer)| < |Matches(words, key)|
    ensures w in Matches(words, key) && !(longer <= w)
  {
    var last := |words| - 1;
    if key <= words[last] && !(longer <= words[last]) {
      w := words[last];
    } else {
      w := NotSharedByAll(words[..last], key, longer);
    }
  }
}
