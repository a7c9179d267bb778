/**
 The readline completion callback: repeated calls list the matches of a text, or with an empty
 text walk the whole table and pick, among the entries of all prefixes, each word once per time
 it was added.
 */
module CompletionGenerator {
  import opened CompletionSpec
  import opened Completion
  import opened Helpers

  /** The entries of a bucket that are as long as its key. */
  function Emit(data: seq<string>, keyLength: nat): seq<string> {
    if data == [] then []
    else (if |data[0]| == keyLength then [data[0]] else []) + Emit(data[1..], keyLength)
  }

  function EmitChain(chain: seq<Bucket>): seq<string> {
    if chain == [] then [] else Emit(chain[0].data, chain[0].keyLength) + EmitChain(chain[1..])
  }

  function EmitFrom(table: Table, i: nat): seq<string>
    decreases |table| - i
  {
    if i >= |table| then [] else EmitChain(table[i]) + EmitFrom(table, i + 1)
  }

  predicate Used(chain: seq<Bucket>) {
    forall j :: 0 <= j < |chain| ==> chain[j].data != []
  }

  /** The static variables of a walk over the table: the rest of a chain, the rest of a bucket, the slot. */
  datatype Cursor = Cursor(b: seq<Bucket>, e: seq<string>, i: nat)

  predicate GoodCursor(c: Cursor) {
    c.e != [] ==> c.b != [] && Used(c.b)
  }

  /** What a walk will still return. */
  function Left(table: Table, c: Cursor): seq<string>
    requires GoodCursor(c)
  {
    if c.e == [] then []
    else Emit(c.e, c.b[0].keyLength) + (EmitChain(c.b[1..]) + EmitFrom(table, c.i + 1))
  }

  lemma LeftOfSlot(table: Table, k: nat)
    requires k < |table| && table[k] != [] && Used(table[k])
    ensures Left(table, Cursor(table[k], table[k][0].data, k)) == EmitFrom(table, k)
  {
    var b := table[k][0];
    assert EmitFrom(table, k) == (Emit(b.data, b.keyLength) + EmitChain(table[k][1..])) + EmitFrom(table, k + 1);
  }

  /** Finds the first used slot from i on. Without one the cursor keeps its chain and entries. */
  method FirstUsed(table: Table, c: Cursor, i: nat) returns (found: bool, c': Cursor)
    requires forall k :: 0 <= k < |table| ==> Used(table[k])
    requires i <= |table|
    ensures !found ==> EmitFrom(table, i) == [] && c' == c.(i := |table|)
    ensures !found ==> forall k :: i <= k < |table| ==> table[k] == []
    ensures found ==> GoodCursor(c') && c'.e != [] && i <= c'.i < |table| && Left(table, c') == EmitFrom(table, i)
  {
    var k := i;
    while k < |table|
      invariant i <= k <= |table| && EmitFrom(table, i) == EmitFrom(table, k)
      invariant forall x :: i <= x < k ==> table[x] == []
    {
      if table[k] != [] {
        found, c' := true, Cursor(table[k], table[k][0].data, k);
        LeftOfSlot(table, k);
        return;
      }
      k := k + 1;
    }
    found, c' := false, c.(i := |table|);
  }

  /** Moves past the current entry, to the next bucket or the next used slot when needed. */
  method Advance(table: Table, c: Cursor) returns (c': Cursor)
    requires forall k :: 0 <= k < |table| ==> Used(table[k])
    requires GoodCursor(c) && c.e != [] && c.i < |table|
    ensures GoodCursor(c') && (c'.e != [] ==> c'.i < |table|)
    ensures Left(table, c) == (if |c.e[0]| == c.b[0].keyLength then [c.e[0]] else []) + Left(table, c')
    ensures c'.i > c.i || (c'.i == c.i && (|c'.b| < |c.b| || (|c'.b| == |c.b| && |c'.e| < |c.e|)))
  {
    ghost var head := if |c.e[0]| == c.b[0].keyLength then [c.e[0]] else [];
    ghost var rest := EmitChain(c.b[1..]) + EmitFrom(table, c.i + 1);
    assert Left(table, c) == head + (Emit(c.e[1..], c.b[0].keyLength) + rest);
    c' := c.(e := c.e[1..]);
    if c'.e == [] {
      assert Left(table, c) == head + rest;
      c' := c'.(b := c.b[1..]);
      if c'.b == [] {
        assert rest == EmitFrom(table, c.i + 1);
        var found;
        found, c' := FirstUsed(table, c', c.i + 1);
      } else {
        c' := c'.(e := c'.b[0].data);
        assert Left(table, c') == rest;
      }
    }
  }

  /** One call of the walk: the next entry that is as long as its key. */
  method NextWord(table: Table, c: Cursor) returns (r: Option<string>, c': Cursor)
    requires forall k :: 0 <= k < |table| ==> Used(table[k])
    requires GoodCursor(c) && (c.e != [] ==> c.i < |table|)
    ensures GoodCursor(c') && (c'.e != [] ==> c'.i < |table|)
    ensures Left(table, c) == if r.Some? then [r.value] + Left(table, c') else []
    ensures r.None? ==> c'.e == []
  {
    r, c' := None, c;
    while c'.e != [] && r.None?
      invariant GoodCursor(c') && (c'.e != [] ==> c'.i < |table|)
      invariant Left(table, c) == (if r.Some? then [r.value] else []) + Left(table, c')
      decreases r.None?, if c'.e == [] then 0 else 1 + |table| - c'.i, |c'.b|, |c'.e|
    {
      if |c'.e[0]| == c'.b[0].keyLength {
        r := Some(c'.e[0]);
      }
      c' := Advance(table, c');
    }
  }

  // ---------- The walk lists every word once per time it was added ----------

  lemma {:induction false} EmitCount(data: seq<string>, n: nat, w: string)
    ensures multiset(Emit(data, n))[w] == if |w| == n then multiset(data)[w] else 0
  {
    if data == [] {
    } else {
      EmitCount(data[1..], n, w);
      assert data == [data[0]] + data[1..];
    }
  }

  /** All entries of a bucket start with its key. */
  ghost predicate Keyed(b: Bucket) {
    0 < b.keyLength <= |b.word| && forall w :: w in b.data ==> Key(b) <= w
  }

  ghost predicate KeyedChain(chain: seq<Bucket>) {
    DistinctKeys(chain) && forall j :: 0 <= j < |chain| ==> Keyed(chain[j])
  }

  lemma BucketCount(b: Bucket, w: string)
    requires Keyed(b)
    ensures multiset(Emit(b.data, b.keyLength))[w] == if Key(b) == w then multiset(b.data)[w] else 0
  {
    EmitCount(b.data, b.keyLength, w);
    if |w| == b.keyLength && w in b.data {
      assert Key(b) <= w;
    }
  }

  lemma NotStored(chain: seq<Bucket>, w: string)
    requires forall j :: 0 <= j < |chain| ==> Key(chain[j]) != w
    ensures StoredIn(chain, w) == []
  {
  }

  lemma {:induction false} EmitChainCount(chain: seq<Bucket>, w: string)
    requires KeyedChain(chain)
    ensures multiset(EmitChain(chain))[w] == multiset(StoredIn(chain, w))[w]
  {
    if chain == [] {
    } else {
      var b, rest := chain[0], chain[1..];
      assert KeyedChain(rest) by {
        assert forall j :: 0 <= j < |rest| ==> rest[j] == chain[j + 1];
      }
      EmitChainCount(rest, w);
      BucketCount(b, w);
      assert multiset(EmitChain(chain))[w] == multiset(Emit(b.data, b.keyLength))[w] + multiset(StoredIn(rest, w))[w];
      if Key(b) == w {
        NotStored(rest, w);
      } else {
        assert StoredIn(chain, w) == StoredIn(rest, w);
      }
    }
  }

  lemma {:induction false} EmitFromCount(table: Table, i: nat, slot: nat, w: string)
    requires forall k :: 0 <= k < |table| ==> KeyedChain(table[k])
    requires forall k :: 0 <= k < |table| && k != slot ==> StoredIn(table[k], w) == []
    requires i <= |table| && slot < |table|
    ensures multiset(EmitFrom(table, i))[w] == if i <= slot then multiset(StoredIn(table[slot], w))[w] else 0
    decreases |table| - i
  {
    if i < |table| {
      EmitFromCount(table, i + 1, slot, w);
      EmitChainCount(table[i], w);
      assert multiset(EmitFrom(table, i))[w] ==
             multiset(StoredIn(table[i], w))[w] + multiset(EmitFrom(table, i + 1))[w];
    }
  }

  lemma ElsewhereNotStored(hash: Hash, table: Table, i: nat, w: string)
    requires GoodTable(hash, table) && i < |table| && i != SlotOf(hash, table, w)
    ensures StoredIn(table[i], w) == []
  {
    assert GoodChain(hash, |table|, i, table[i]);
    forall j | 0 <= j < |table[i]|
      ensures Key(table[i][j]) != w
    {
      assert GoodBucket(hash, table[i][j]) && table[i][j].h % |table| == i;
    }
    NotStored(table[i], w);
  }

  lemma {:induction false} MatchesCount(words: seq<string>, w: string)
    ensures multiset(Matches(words, w))[w] == multiset(words)[w]
  {
    if words == [] {
    } else {
      var last := |words| - 1;
      assert words == words[..last] + [words[last]];
      MatchesCount(words[..last], w);
    }
  }

  lemma RepresentedKeyed(hash: Hash, table: Table, words: seq<string>, i: nat)
    requires Represents(hash, table, words, [], 0) && i < |table|
    ensures KeyedChain(table[i]) && Used(table[i])
  {
    var chain := table[i];
    assert GoodChain(hash, |table|, i, chain);
    forall j | 0 <= j < |chain|
      ensures Keyed(chain[j]) && chain[j].data != []
    {
      var key := Key(chain[j]);
      assert GoodBucket(hash, chain[j]) && chain[j].h % |table| == i;
      assert FindIn(chain, key) == j;
      assert Stored(hash, table, key) == chain[j].data == Expected(words, [], 0, key) == Matches(words, key);
      forall w | w in chain[j].data
        ensures key <= w
      {
        MatchesMember(words, key, w);
      }
    }
  }

  lemma AllUsed(hash: Hash, table: Table, words: seq<string>)
    requires Represents(hash, table, words, [], 0)
    ensures forall i :: 0 <= i < |table| ==> Used(table[i])
  {
    forall i | 0 <= i < |table|
      ensures Used(table[i])
    {
      RepresentedKeyed(hash, table, words, i);
    }
  }

  /** The walk over a table lists every added word exactly as often as it was added, and nothing else. */
  lemma WalkListsWords(hash: Hash, table: Table, words: seq<string>, w: string)
    requires Represents(hash, table, words, [], 0)
    ensures multiset(EmitFrom(table, 0))[w] == if w == [] then 0 else multiset(words)[w]
  {
    forall i | 0 <= i < |table|
      ensures KeyedChain(table[i])
    {
      RepresentedKeyed(hash, table, words, i);
    }
    var slot := SlotOf(hash, table, w);
    forall k | 0 <= k < |table| && k != slot
      ensures StoredIn(table[k], w) == []
    {
      ElsewhereNotStored(hash, table, k, w);
    }
    EmitFromCount(table, 0, slot, w);
    if w == [] {
      NotStored(table[slot], w);
    } else {
      MatchesCount(words, w);
      assert Stored(hash, table, w) == Expected(words, [], 0, w) == Matches(words, w);
    }
  }

  // ---------- The callback ----------

  lemma StoredMatches(hash: Hash, table: Table, words: seq<string>, key: string)
    requires Represents(hash, table, words, [], 0) && key != []
    ensures Stored(hash, table, key) == Matches(words, key)
  {
    assert Stored(hash, table, key) == Expected(words, [], 0, key);
  }

  lemma NoSlotNoWord(hash: Hash, table: Table, words: seq<string>)
    requires Represents(hash, table, words, [], 0) && forall k :: 0 <= k < |table| ==> table[k] == []
    ensures forall w :: w in words ==> w == []
  {
    forall w | w in words
      ensures w == []
    {
      MatchesMember(words, w, w);
      if w != [] {
        StoredMatches(hash, table, words, w);
        assert false;
      }
    }
  }

  class Generator {
    var textLength: nat
    var c: Cursor        // with a text, only its entries are used

    constructor ()
      ensures c.e == []
    {
      textLength, c := 0, Cursor([], [], 0);
    }

    /** In the middle of a walk the cursor is on an entry of a table of this size. */
    ghost predicate Valid(size: nat)
      reads this
    {
      textLength == 0 ==> GoodCursor(c) && (c.e != [] ==> c.i < size)
    }

    /** A walk can start: there is a used slot to start from, or nothing is left of an earlier listing. */
    ghost predicate CanWalk(ht: HashTable)
      reads this, ht, ht.buckets
    {
      c.e == [] || exists w :: w in ht.words && w != []
    }

    /** What the following calls will return. */
    ghost function ToCome(table: Table): seq<string>
      reads this
      requires Valid(|table|)
    {
      if textLength > 0 then c.e else Left(table, c)
    }

    /**
     One call. The first call for a text starts the list of its matches, or the walk. When there is
     nothing more to return nothing is left, unless a text had no match at all.
     */
    method Call(ht: HashTable, text: string, first: bool) returns (r: Option<string>)
      requires ht.Valid() && (!first ==> Valid(ht.buckets.Length)) && (first && text == [] ==> CanWalk(ht))
      modifies this
      ensures Valid(ht.buckets.Length)
      ensures var list := if first then Listing(ht, text) else old(ToCome(ht.buckets[..]));
              if list == [] then r.None? else r == Some(list[0]) && ToCome(ht.buckets[..]) == list[1..]
      ensures r.None? ==> c.e == [] || (first && text != [] && c.e == old(c.e))
      ensures textLength == if first then |text| else old(textLength)
    {
      if first {
        textLength := |text|;
      }
      if textLength > 0 {
        r := NextMatch(ht, text, first);
      } else {
        AllUsed(ht.hash, ht.buckets[..], ht.words);
        if first {
          var found;
          found, c := FirstUsed(ht.buckets[..], c, 0);
          if !found {
            NoSlotNoWord(ht.hash, ht.buckets[..], ht.words);
          }
        }
        r, c := NextWord(ht.buckets[..], c);
      }
    }

    /** With a text: the next entry of the bucket that was found for it. */
    method NextMatch(ht: HashTable, text: string, first: bool) returns (r: Option<string>)
      requires ht.Valid() && (first ==> text != [])
      modifies this`c
      ensures var list := if first then Matches(ht.words, text) else old(c.e);
              if list == [] then r.None? else r == Some(list[0]) && c.e == list[1..]
      ensures r.None? ==> c.e == [] || (first && c.e == old(c.e))
    {
      r := None;
      if first {
        var b, length := ht.FindAllMatches(text);
        if b.None? {
          c := c.(b := []);
          return;
        }
        c := c.(b := [b.value], e := b.value.data);
      }
      if c.e != [] {
        r := Some(c.e[0]);
        c := c.(e := c.e[1..]);
      }
    }
  }

  /** What the calls for a text list. */
  ghost function Listing(ht: HashTable, text: string): seq<string>
    reads ht, ht.buckets
  {
    if text != [] then Matches(ht.words, text) else EmitFrom(ht.buckets[..], 0)
  }

  /** The list is what has been collected, the word at hand and what is to come. */
  ghost predicate Collecting(list: seq<string>, results: seq<string>, r: Option<string>, left: seq<string>) {
    if r.Some? then list == results + ([r.value] + left) else list == results
  }

  lemma CollectedOneMore(list: seq<string>, results: seq<string>, word: string, left: seq<string>,
                         r: Option<string>, left': seq<string>)
    requires list == results + ([word] + left)
    requires if left == [] then r.None? else r == Some(left[0]) && left' == left[1..]
    ensures Collecting(list, results + [word], r, left')
  {
    Reassociate(results, [word], left);
    if left != [] {
      assert left == [left[0]] + left[1..];
    }
  }

  method CallAgain(ht: HashTable, g: Generator, text: string, ghost list: seq<string>,
                   ghost results: seq<string>, ghost word: string) returns (r: Option<string>)
    requires ht.Valid() && g.Valid(ht.buckets.Length)
    requires list == results + ([word] + g.ToCome(ht.buckets[..]))
    modifies g
    ensures g.Valid(ht.buckets.Length) && (r.None? ==> g.c.e == [])
    ensures Collecting(list, results + [word], r, g.ToCome(ht.buckets[..]))
    ensures r.Some? ==> |g.ToCome(ht.buckets[..])| < old(|g.ToCome(ht.buckets[..])|)
  {
    ghost var left := g.ToCome(ht.buckets[..]);
    r := g.Call(ht, text, false);
    CollectedOneMore(list, results, word, left, r, g.ToCome(ht.buckets[..]));
  }

  /**
   All that readline collects for a text: it calls until there is nothing more. The statics are left
   as the next completion needs them: with nothing to list, unless a text had no match.
   */
  method Collect(ht: HashTable, g: Generator, text: string) returns (results: seq<string>)
    requires ht.Valid() && (text == [] ==> g.CanWalk(ht))
    modifies g
    ensures results == Listing(ht, text)
    ensures g.Valid(ht.buckets.Length)
    ensures g.c.e == [] || (text != [] && results == [] && g.c.e == old(g.c.e))
  {
    ghost var list := Listing(ht, text);
    results := [];
    var r := g.Call(ht, text, true);
    while r.Some?
      invariant g.Valid(ht.buckets.Length)
      invariant Collecting(list, results, r, g.ToCome(ht.buckets[..]))
      invariant r.None? ==> g.c.e == [] || (text != [] && results == [] && g.c.e == old(g.c.e))
      decreases r.Some?, |g.ToCome(ht.buckets[..])|
    {
      ghost var before, word := results, r.value;
      results := results + [r.value];
      r := CallAgain(ht, g, text, list, before, word);
    }
  }

  /** One completion after the other, with the statics as the last one left them. */
  method Complete(ht: HashTable, g: Generator, text: string) returns (results: seq<string>)
    requires ht.Valid() && (text == [] ==> g.CanWalk(ht))
    modifies g
    ensures text != [] ==> results == Matches(ht.words, text)
    ensures text == [] ==> forall w :: multiset(results)[w] == if w == [] then 0 else multiset(ht.words)[w]
    ensures g.c.e == [] || (text != [] && results == [] && g.c.e == old(g.c.e))
  {
    results := Collect(ht, g, text);
    if text == [] {
      forall w
        ensures multiset(results)[w] == if w == [] then 0 else multiset(ht.words)[w]
      {
        WalkListsWords(ht.hash, ht.buckets[..], ht.words, w);
      }
    }
  }
}
