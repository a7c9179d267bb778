/**
 The clients' growable string: a byte buffer that may be owned or borrowed, with 32-bit lengths.
 */
module SqlString {

  const LIMIT: nat := 0x1_0000_0000

  type Chars = seq<char>

  // ---------- Sizes ----------

  /** The buffer size for a string of n bytes: one more, in multiples of eight, in 32-bit arithmetic. */
  function AlignedSize(n: nat): nat {
    ((n + 1) % LIMIT + 7) / 8 * 8 % LIMIT
  }

  /** Only sizes too close to the limit overflow, and the overflow shows. */
  lemma AlignedSizeFits(n: nat)
    requires n < LIMIT
    ensures AlignedSize(n) > n <==> n + 1 <= LIMIT - 8
    ensures AlignedSize(n) > n ==> AlignedSize(n) <= n + 8 && AlignedSize(n) % 8 == 0
  {
  }

  /** A buffer of `alloced` bytes cannot be made to hold n bytes and a terminator. */
  predicate Refuses(n: nat, alloced: nat, memory: bool) {
    n + 1 > LIMIT - 8 || (!memory && alloced < AlignedSize(n))
  }

  // ---------- Meanings ----------

  /** s with the n bytes at `at` replaced by t. */
  function Splice(s: Chars, at: nat, n: nat, t: Chars): (r: Chars)
    requires at + n <= |s|
    ensures |r| == |s| - n + |t|
  {
    s[..at] + t + s[at + n..]
  }

  function SplicedByte(s: Chars, at: nat, n: nat, t: Chars, i: nat): char
    requires at + n <= |s| && i < |s| - n + |t|
  {
    if i < at then s[i] else if i < at + |t| then t[i - at] else s[i - |t| + n]
  }

  /** r is the splice, byte by byte. */
  lemma IsSplice(s: Chars, at: nat, n: nat, t: Chars, r: Chars)
    requires at + n <= |s| && |r| == |s| - n + |t|
    requires forall i :: 0 <= i < |r| ==> r[i] == SplicedByte(s, at, n, t, i)
    ensures r == Splice(s, at, n, t)
  {
    assert r[..at] == s[..at];
    assert r[at..at + |t|] == t;
    assert r[at + |t|..] == s[at + n..];
    assert r == r[..at] + r[at..at + |t|] + r[at + |t|..];
  }

  predicate OccursAt(s: Chars, t: Chars, i: int) {
    0 <= i && i + |t| <= |s| && s[i..i + |t|] == t
  }

  function Fill(n: nat, c: char): Chars {
    seq(n, _ => c)
  }

  function Longest(n: nat, m: nat): nat {
    if n > m then n else m
  }

  /** A 32-bit difference as a signed value. */
  function Signed32(n: int): int {
    if n % LIMIT < LIMIT / 2 then n % LIMIT else n % LIMIT - LIMIT
  }

  /** How many bytes are filled in: what is missing, if that is less than 2^31. */
  function Missing(n: nat, full: nat): nat {
    if n < full && full - n < LIMIT / 2 then full - n else 0
  }

  // ---------- Moving bytes in one buffer ----------

  /** bmove towards lower addresses: the ranges may overlap. */
  method MoveDown(a: array<char>, dst: nat, src: nat, n: nat)
    requires dst <= src && src + n <= a.Length
    modifies a
    ensures forall i :: 0 <= i < a.Length ==>
              a[i] == if dst <= i < dst + n then old(a[i - dst + src]) else old(a[i])
  {
    var k := 0;
    while k < n
      invariant k <= n
      invariant forall i :: 0 <= i < a.Length ==>
                  a[i] == if dst <= i < dst + k then old(a[i - dst + src]) else old(a[i])
    {
      a[dst + k] := a[src + k];
      k := k + 1;
    }
  }

  /** bmove_upp: from the ends of the ranges downwards. */
  method MoveUp(a: array<char>, dstEnd: nat, srcEnd: nat, n: nat)
    requires n <= srcEnd <= dstEnd <= a.Length
    modifies a
    ensures forall i :: 0 <= i < a.Length ==>
              a[i] == if dstEnd - n <= i < dstEnd then old(a[i - dstEnd + srcEnd]) else old(a[i])
  {
    var k := 0;
    while k < n
      invariant k <= n
      invariant forall i :: 0 <= i < a.Length ==>
                  a[i] == if dstEnd - k <= i < dstEnd then old(a[i - dstEnd + srcEnd]) else old(a[i])
    {
      k := k + 1;
      a[dstEnd - k] := a[srcEnd - k];
    }
  }

  /** memcpy from elsewhere. */
  method CopyIn(a: array<char>, at: nat, s: Chars)
    requires at + |s| <= a.Length
    modifies a
    ensures forall i :: 0 <= i < a.Length ==> a[i] == if at <= i < at + |s| then s[i - at] else old(a[i])
  {
    var k := 0;
    while k < |s|
      invariant k <= |s|
      invariant forall i :: 0 <= i < a.Length ==> a[i] == if at <= i < at + k then s[i - at] else old(a[i])
    {
      a[at + k] := s[k];
      k := k + 1;
    }
  }

  /** A new block with the first bytes of an old one. */
  method CopyBlock(a: array<char>, n: nat, size: nat) returns (b: array<char>)
    requires n <= a.Length && n <= size
    ensures fresh(b) && b.Length == size
    ensures forall i :: 0 <= i < n ==> b[i] == a[i]
  {
    b := new char[size];
    var k := 0;
    while k < n
      invariant k <= n
      invariant forall i :: 0 <= i < k ==> b[i] == a[i]
    {
      b[k] := a[k];
      k := k + 1;
    }
  }

  // ---------- The string ----------

  class String {
    var ptr: array<char>
    var strLength: nat
    var allocedLength: nat
    var alloced: bool

    /** A borrowed buffer may be longer than the size the string will use; an owned one holds the whole string. */
    ghost predicate Valid()
      reads this
    {
      && strLength <= ptr.Length < LIMIT
      && allocedLength <= ptr.Length
      && (alloced ==> strLength <= allocedLength == ptr.Length)
    }

    ghost function Contents(): Chars
      reads this, ptr
      requires Valid()
    {
      ptr[..strLength]
    }

    /** A string over a borrowed constant, as `set` makes it. */
    constructor (s: Chars)
      requires |s| < LIMIT
      ensures Valid() && Contents() == s && fresh(ptr) && !alloced
    {
      var a := new char[|s|](i requires 0 <= i < |s| => s[i]);
      ptr, strLength, allocedLength, alloced := a, |s|, 0, false;
      new;
      assert ptr[..] == s;
    }

    /** A larger block of its own, with the old contents. */
    method NewBlock(size: nat)
      requires Valid() && allocedLength < size < LIMIT && strLength <= size
      modifies this
      ensures Valid() && alloced && allocedLength == size && fresh(ptr)
      ensures strLength == old(strLength) && Contents() == old(Contents())
    {
      var b := CopyBlock(ptr, strLength, size);
      ptr, allocedLength, alloced := b, size, true;
    }

    /** Makes room for n bytes and a terminator, which it sets; needs memory only where the buffer is too small. */
    method Realloc(n: nat, memory: bool) returns (error: bool)
      requires Valid() && n < LIMIT
      modifies this, ptr
      ensures Valid() && (fresh(ptr) || ptr == old(ptr))
      ensures error <==> Refuses(n, old(allocedLength), memory)
      ensures error ==> strLength == old(strLength) && Contents() == old(Contents())
      ensures !error ==> allocedLength >= old(allocedLength) && allocedLength > n && ptr[n] == '\0'
      ensures !error ==> allocedLength >= AlignedSize(n)
      ensures !error && old(strLength) <= n ==> strLength == old(strLength) && Contents() == old(Contents())
      ensures !error && n < old(strLength) ==>
                Contents() == if old(allocedLength) < AlignedSize(n) <= old(strLength) then []
                              else old(Contents())[n := '\0']
    {
      AlignedSizeFits(n);
      var len := AlignedSize(n);
      if len <= n {
        return true;
      }
      if allocedLength < len {
        if !memory {
          return true;
        }
        var owned := alloced;
        if !owned && strLength > len - 1 {
          strLength := 0;
        }
        NewBlock(len);
        if !owned {
          ptr[strLength] := '\0';
        }
      }
      ptr[n] := '\0';
      return false;
    }

    method Append(s: Chars, memory: bool) returns (error: bool)
      requires Valid() && strLength + |s| < LIMIT
      modifies this, ptr
      ensures Valid() && (fresh(ptr) || ptr == old(ptr))
      ensures error <==> |s| > 0 && Refuses(old(strLength) + |s|, old(allocedLength), memory)
      ensures Contents() == if error then old(Contents()) else old(Contents()) + s
      ensures !error && |s| > 0 ==> allocedLength >= old(allocedLength) && allocedLength > strLength
    {
      if |s| == 0 {
        assert Contents() + s == Contents();
        return false;
      }
      error := Realloc(strLength + |s|, memory);
      if !error {
        AppendInPlace(s);
      }
    }

    method AppendInPlace(s: Chars)
      requires Valid() && strLength + |s| <= allocedLength
      modifies this`strLength, ptr
      ensures Valid() && Contents() == old(Contents()) + s && strLength == old(strLength) + |s|
    {
      CopyIn(ptr, strLength, s);
      strLength := strLength + |s|;
    }

    /**
     Fills on the left up to the full length; once there is room, the inner append cannot fail. The
     number of fill bytes is taken as a signed 32-bit value, and is none from 2^31 on.
     */
    method AppendWithPrefill(s: Chars, fullLength: nat, fill: char, memory: bool) returns (error: bool)
      requires Valid() && strLength + Longest(|s|, fullLength) < LIMIT && |s| - fullLength <= LIMIT / 2
      modifies this, ptr
      ensures Valid() && (fresh(ptr) || ptr == old(ptr))
      ensures error <==> Refuses(old(strLength) + Longest(|s|, fullLength), old(allocedLength), memory)
      ensures Contents() == if error then old(Contents())
                            else old(Contents()) + Fill(Missing(|s|, fullLength), fill) + s
    {
      error := Realloc(strLength + Longest(|s|, fullLength), memory);
      if !error {
        SignedMissing(|s|, fullLength);
        AlignedSizeMonotone(strLength + Missing(|s|, fullLength) + |s|, strLength + Longest(|s|, fullLength));
        PadAndAppend(s, Signed32(fullLength - |s|), fill);
      }
    }

    method PadAndAppend(s: Chars, missing: int, fill: char)
      requires Valid() && strLength + (if missing > 0 then missing else 0) + |s| + 1 <= LIMIT - 8
      requires AlignedSize(strLength + (if missing > 0 then missing else 0) + |s|) <= allocedLength
      requires strLength + (if missing > 0 then missing else 0) <= allocedLength
      modifies this, ptr
      ensures Valid() && (fresh(ptr) || ptr == old(ptr))
      ensures Contents() == old(Contents()) + Fill(if missing > 0 then missing else 0, fill) + s
    {
      if missing > 0 {
        AppendInPlace(Fill(missing, fill));
      } else {
        assert Contents() == old(Contents()) + Fill(0, fill);
      }
      var again := Append(s, false);
    }

    /** Makes room in the middle, or closes it up, by moving the tail over itself. */
    method Replace(at: nat, n: nat, to: Chars, memory: bool) returns (error: bool)
      requires Valid() && at + n < LIMIT && (at + n <= strLength ==> strLength - n + |to| < LIMIT)
      modifies this, ptr
      ensures Valid() && (fresh(ptr) || ptr == old(ptr))
      ensures error <==> at + n <= old(strLength) && |to| > n
                         && Refuses(old(strLength) + |to| - n, old(allocedLength), memory)
      ensures Contents() == if error || at + n > old(strLength) then old(Contents())
                            else Splice(old(Contents()), at, n, to)
    {
      error := false;
      if at + n <= strLength {
        if |to| < n {
          CloseUp(at, n, to);
        } else {
          if |to| > n {
            error := Realloc(strLength + |to| - n, memory);
          }
          if !error {
            OpenUp(at, n, to);
          }
        }
      }
    }

    method OpenUp(at: nat, n: nat, to: Chars)
      requires Valid() && at + n <= strLength && |to| >= n
      requires strLength + |to| - n <= ptr.Length
      modifies this`strLength, ptr
      ensures Valid() && Contents() == Splice(old(Contents()), at, n, to)
    {
      if |to| > n {
        MoveUp(ptr, strLength + |to| - n, strLength, strLength - at - n);
      }
      CopyIn(ptr, at, to);
      strLength := strLength + |to| - n;
      IsSplice(old(ptr[..strLength]), at, n, to, ptr[..strLength]);
    }

    method CloseUp(at: nat, n: nat, to: Chars)
      requires Valid() && at + n <= strLength && |to| < n
      modifies this`strLength, ptr
      ensures Valid() && Contents() == Splice(old(Contents()), at, n, to)
    {
      CopyIn(ptr, at, to);
      MoveDown(ptr, at + |to|, at + n, strLength - at - n);
      strLength := strLength - n + |to|;
      IsSplice(old(ptr[..strLength]), at, n, to, ptr[..strLength]);
    }

    /** Compares forwards, from a place where the first byte has matched. */
    method MatchesForwards(search: Chars, at: nat) returns (same: bool)
      requires Valid() && |search| > 0 && at + |search| <= strLength && ptr[at] == search[0]
      ensures same == OccursAt(Contents(), search, at)
    {
      var j := 1;
      while j != |search|
        invariant 1 <= j <= |search|
        invariant forall k :: 0 <= k < j ==> ptr[at + k] == search[k]
      {
        if ptr[at + j] != search[j] {
          Differs(Contents(), search, at, j);
          return false;
        }
        j := j + 1;
      }
      Agrees(Contents(), search, at);
      return true;
    }

    /** Compares backwards, from a place where the last byte has matched. */
    method MatchesBackwards(search: Chars, end: nat) returns (same: bool)
      requires Valid() && 0 < |search| <= end <= strLength && ptr[end - 1] == search[|search| - 1]
      ensures same == OccursAt(Contents(), search, end - |search|)
    {
      ghost var at := end - |search|;
      var j := |search| - 1;
      while j != 0
        invariant 0 <= j < |search|
        invariant forall k :: j <= k < |search| ==> ptr[at + k] == search[k]
      {
        j := j - 1;
        if ptr[end - |search| + j] != search[j] {
          Differs(Contents(), search, at, j);
          return false;
        }
      }
      Agrees(Contents(), search, at);
      return true;
    }

    /** The least occurrence from an offset on, or -1. */
    method Strstr(search: Chars, offset: nat) returns (found: int)
      requires Valid() && |search| + offset < LIMIT
      ensures found == -1 <==> forall i :: i >= offset ==> !OccursAt(Contents(), search, i)
      ensures found != -1 ==> found >= offset && OccursAt(Contents(), search, found)
      ensures found != -1 ==> forall i :: offset <= i < found ==> !OccursAt(Contents(), search, i)
    {
      if |search| + offset > strLength {
        return -1;
      }
      if |search| == 0 {
        assert OccursAt(Contents(), search, offset);
        return offset;
      }
      var at := offset;
      while at != strLength - |search| + 1
        invariant offset <= at <= strLength - |search| + 1
        invariant forall i :: offset <= i < at ==> !OccursAt(Contents(), search, i)
      {
        if ptr[at] == search[0] {
          var same := MatchesForwards(search, at);
          if same {
            return at;
          }
        } else {
          Differs(Contents(), search, at, 0);
        }
        at := at + 1;
      }
      return -1;
    }

    /** The greatest occurrence that ends at or before an offset, or -1. */
    method Strrstr(search: Chars, offset: nat) returns (found: int)
      requires Valid()
      ensures found == -1 <==>
                offset > strLength || forall i :: i <= offset - |search| ==> !OccursAt(Contents(), search, i)
      ensures found != -1 ==> found <= offset - |search| && OccursAt(Contents(), search, found)
      ensures found != -1 ==> forall i :: found < i <= offset - |search| ==> !OccursAt(Contents(), search, i)
    {
      if |search| > offset || offset > strLength {
        return -1;
      }
      if |search| == 0 {
        assert OccursAt(Contents(), search, offset);
        return offset;
      }
      var end := offset;
      while end != |search| - 1
        invariant |search| - 1 <= end <= offset
        invariant forall i :: end - |search| < i <= offset - |search| ==> !OccursAt(Contents(), search, i)
      {
        if ptr[end - 1] == search[|search| - 1] {
          var same := MatchesBackwards(search, end);
          if same {
            return end - |search|;
          }
        } else {
          Differs(Contents(), search, end - |search|, |search| - 1);
        }
        end := end - 1;
      }
      return -1;
    }
  }

  lemma SignedMissing(n: nat, full: nat)
    requires n < LIMIT && full < LIMIT && n - full <= LIMIT / 2
    ensures (if Signed32(full - n) > 0 then Signed32(full - n) else 0) == Missing(n, full)
  {
  }

  lemma AlignedSizeMonotone(n: nat, m: nat)
    requires n <= m && m + 1 <= LIMIT - 8
    ensures AlignedSize(n) <= AlignedSize(m)
  {
  }

  lemma Agrees(s: Chars, t: Chars, i: nat)
    requires i + |t| <= |s| && forall k :: 0 <= k < |t| ==> s[i + k] == t[k]
    ensures OccursAt(s, t, i)
  {
    forall k | 0 <= k < |t|
      ensures s[i..i + |t|][k] == t[k]
    {
      assert s[i + k] == t[k];
    }
  }

  lemma Differs(s: Chars, t: Chars, i: nat, k: nat)
    requires i + |t| <= |s| && k < |t| && s[i + k] != t[k]
    ensures !OccursAt(s, t, i)
  {
    assert s[i..i + |t|][k] == s[i + k];
  }
}
