/**
 * The small part of the JavaScript runtime that the task views rely on:
 * `undefined`/`null` as an option, `Array.prototype.filter` and `map`,
 * `String.prototype.toLowerCase`, `includes` and `trim`, and the integer
 * meaning of `Math.round(part / whole * 100)`.
 */
module Builtins {

  /** A value that may be absent (`undefined` or `null` in the source). */
  datatype Option<+T> = None | Some(value: T)

  // ---------------------------------------------------------------------------
  // Array.prototype.filter

  /** The elements of `s` that satisfy `p`, in their original order. */
  function Filter<T>(s: seq<T>, p: T -> bool): (r: seq<T>)
    ensures |r| <= |s|
    ensures forall i :: 0 <= i < |r| ==> r[i] in s && p(r[i])
    ensures forall i :: 0 <= i < |s| && p(s[i]) ==> s[i] in r
    decreases |s|
  {
    if s == [] then []
    else (if p(s[0]) then [s[0]] else []) + Filter(s[1..], p)
  }

  /** `xs.filter(p).length` */
  function Count<T>(s: seq<T>, p: T -> bool): nat
  {
    |Filter(s, p)|
  }

  /** `r` is `s` read at the strictly increasing positions `idx`. */
  ghost predicate ReadAt<T>(r: seq<T>, s: seq<T>, idx: seq<nat>)
  {
    && |idx| == |r|
    && (forall k :: 0 <= k < |idx| ==> idx[k] < |s| && r[k] == s[idx[k]])
    && (forall k, l :: 0 <= k < l < |idx| ==> idx[k] < idx[l])
  }

  /** `idx` holds exactly the positions of `s` whose element satisfies `p`. */
  ghost predicate Marks<T>(s: seq<T>, p: T -> bool, idx: seq<nat>)
  {
    forall j :: 0 <= j < |s| ==> (p(s[j]) <==> j in idx)
  }

  function ShiftUp(xs: seq<nat>): (ys: seq<nat>)
    ensures |ys| == |xs|
    ensures forall k :: 0 <= k < |xs| ==> ys[k] == xs[k] + 1
  {
    if xs == [] then [] else [xs[0] + 1] + ShiftUp(xs[1..])
  }

  lemma ShiftReadAt<T>(r: seq<T>, s: seq<T>, idx: seq<nat>)
    requires s != [] && ReadAt(r, s[1..], idx)
    ensures ReadAt(r, s, ShiftUp(idx))
    ensures forall k :: 0 <= k < |idx| ==> ShiftUp(idx)[k] >= 1
  {
    var sh := ShiftUp(idx);
    forall k | 0 <= k < |sh| ensures sh[k] < |s| && r[k] == s[sh[k]] {
      assert sh[k] == idx[k] + 1;
      assert r[k] == s[1..][idx[k]];
    }
    forall k, l | 0 <= k < l < |sh| ensures sh[k] < sh[l] {
      assert sh[k] == idx[k] + 1 && sh[l] == idx[l] + 1;
    }
  }

  lemma ShiftMarks<T>(s: seq<T>, p: T -> bool, idx: seq<nat>)
    requires s != [] && Marks(s[1..], p, idx)
    ensures forall j :: 1 <= j < |s| ==> (p(s[j]) <==> j in ShiftUp(idx))
    ensures 0 !in ShiftUp(idx)
  {
    var sh := ShiftUp(idx);
    forall j | 1 <= j < |s|
      ensures p(s[j]) <==> j in sh
    {
      assert s[j] == s[1..][j - 1];
      if j - 1 in idx {
        var k :| 0 <= k < |idx| && idx[k] == j - 1;
        assert sh[k] == j;
      }
      if j in sh {
        var k :| 0 <= k < |sh| && sh[k] == j;
        assert idx[k] == j - 1;
      }
    }
  }

  lemma ConsReadAt<T>(x: T, r: seq<T>, s: seq<T>, idx: seq<nat>)
    requires s != [] && s[0] == x && ReadAt(r, s, idx)
    requires forall k :: 0 <= k < |idx| ==> idx[k] >= 1
    ensures ReadAt([x] + r, s, [0] + idx)
  {
    var r', idx' := [x] + r, [0] + idx;
    forall k | 0 <= k < |idx'| ensures idx'[k] < |s| && r'[k] == s[idx'[k]] {
      if k > 0 {
        assert idx'[k] == idx[k - 1] && r'[k] == r[k - 1];
      }
    }
    forall k, l | 0 <= k < l < |idx'| ensures idx'[k] < idx'[l] {
      assert idx'[l] == idx[l - 1];
      if k > 0 { assert idx'[k] == idx[k - 1]; }
    }
  }

  /**
   * Filter keeps exactly the positions whose element satisfies `p`, in
   * increasing order: `idx` lists those positions and the result is `s`
   * read at them.
   */
  lemma {:induction false} FilterIndices<T>(s: seq<T>, p: T -> bool) returns (idx: seq<nat>)
    ensures ReadAt(Filter(s, p), s, idx)
    ensures Marks(s, p, idx)
    decreases |s|
  {
    if s == [] {
      return [];
    }
    var tail := Filter(s[1..], p);
    var rest := FilterIndices(s[1..], p);
    ShiftReadAt(tail, s, rest);
    ShiftMarks(s, p, rest);
    var shifted := ShiftUp(rest);
    if p(s[0]) {
      assert Filter(s, p) == [s[0]] + tail;
      ConsReadAt(s[0], tail, s, shifted);
      idx := [0] + shifted;
      forall j | 0 <= j < |s| ensures p(s[j]) <==> j in idx {
        assert j in idx <==> j == 0 || j in shifted;
      }
    } else {
      assert Filter(s, p) == tail;
      idx := shifted;
    }
  }

  /** Filtering a concatenation filters each part. */
  lemma {:induction false} FilterAppend<T>(a: seq<T>, b: seq<T>, p: T -> bool)
    ensures Filter(a + b, p) == Filter(a, p) + Filter(b, p)
    decreases |a|
  {
    if a != [] {
      assert (a + b)[1..] == a[1..] + b;
      FilterAppend(a[1..], b, p);
    } else {
      assert a + b == b;
    }
  }

  /** When every element satisfies `p`, filtering is the identity. */
  lemma {:induction false} FilterAll<T>(s: seq<T>, p: T -> bool)
    requires forall i :: 0 <= i < |s| ==> p(s[i])
    ensures Filter(s, p) == s
    decreases |s|
  {
    if s != [] {
      FilterAll(s[1..], p);
    }
  }

  /** When no element satisfies `p`, filtering yields nothing. */
  lemma {:induction false} FilterNone<T>(s: seq<T>, p: T -> bool)
    requires forall i :: 0 <= i < |s| ==> !p(s[i])
    ensures Filter(s, p) == []
    decreases |s|
  {
    if s != [] {
      FilterNone(s[1..], p);
    }
  }

  /** Filtering twice by the same predicate is filtering once. */
  lemma FilterIdempotent<T>(s: seq<T>, p: T -> bool)
    ensures Filter(Filter(s, p), p) == Filter(s, p)
  {
    var r := Filter(s, p);
    forall i | 0 <= i < |r| ensures p(r[i]) {
      assert r[i] in r;
    }
    FilterAll(r, p);
  }

  /** Predicates that agree on the elements of `s` filter it alike. */
  lemma {:induction false} FilterCongruent<T>(s: seq<T>, p: T -> bool, q: T -> bool)
    requires forall i :: 0 <= i < |s| ==> p(s[i]) == q(s[i])
    ensures Filter(s, p) == Filter(s, q)
    decreases |s|
  {
    if s != [] {
      FilterCongruent(s[1..], p, q);
    }
  }

  /** When `q` is the negation of `p` on `s`, their counts add up to `|s|`. */
  lemma {:induction false} CountSplit<T>(s: seq<T>, p: T -> bool, q: T -> bool)
    requires forall i :: 0 <= i < |s| ==> q(s[i]) == !p(s[i])
    ensures Count(s, p) + Count(s, q) == |s|
    decreases |s|
  {
    if s != [] {
      CountSplit(s[1..], p, q);
    }
  }

  // ---------------------------------------------------------------------------
  // Array.prototype.map

  /** `xs.map(f)` */
  function Map<T, U>(s: seq<T>, f: T -> U): seq<U>
  {
    seq(|s|, i requires 0 <= i < |s| => f(s[i]))
  }

  // ---------------------------------------------------------------------------
  // Strings

  /** Lower-casing of one character, restricted to ASCII letters. */
  function LowerChar(c: char): char
  {
    if 'A' <= c <= 'Z' then (c as int + 32) as char else c
  }

  /** `s.toLowerCase()` over ASCII. */
  function ToLower(s: string): string
  {
    Map(s, LowerChar)
  }

  /** Lower-casing a lower-cased string changes nothing. */
  lemma ToLowerIdempotent(s: string)
    ensures ToLower(ToLower(s)) == ToLower(s)
  {
    var t := ToLower(s);
    forall i | 0 <= i < |t| ensures ToLower(t)[i] == t[i] {
      var c := s[i];
      assert t[i] == LowerChar(c);
      assert ToLower(t)[i] == LowerChar(t[i]);
      if 'A' <= c <= 'Z' {
        assert LowerChar(c) as int == c as int + 32;
      }
    }
  }

  /** `needle` occurs in `hay` starting at position `i`. */
  predicate OccursAt(hay: string, needle: string, i: nat)
  {
    i + |needle| <= |hay| && hay[i..i + |needle|] == needle
  }

  /** `hay.includes(needle)`: try each start position from the left. */
  predicate Includes(hay: string, needle: string)
    decreases |hay|
  {
    (|needle| <= |hay| && hay[..|needle|] == needle)
    || (hay != [] && Includes(hay[1..], needle))
  }

  /** An occurrence at any position makes `includes` true. */
  lemma {:induction false} IncludesFromOccurrence(hay: string, needle: string, i: nat)
    requires OccursAt(hay, needle, i)
    ensures Includes(hay, needle)
    decreases i
  {
    if i > 0 {
      assert hay[1..][i - 1..i - 1 + |needle|] == hay[i..i + |needle|];
      IncludesFromOccurrence(hay[1..], needle, i - 1);
    }
  }

  /** When `includes` is true, the needle occurs at some position. */
  lemma {:induction false} OccurrenceFromIncludes(hay: string, needle: string) returns (i: nat)
    requires Includes(hay, needle)
    ensures OccursAt(hay, needle, i)
    decreases |hay|
  {
    if |needle| <= |hay| && hay[..|needle|] == needle {
      i := 0;
    } else {
      var i' := OccurrenceFromIncludes(hay[1..], needle);
      assert hay[1..][i'..i' + |needle|] == hay[i' + 1..i' + 1 + |needle|];
      i := i' + 1;
    }
  }

  /** `includes` holds exactly when the needle occurs at some position. */
  lemma IncludesIff(hay: string, needle: string)
    ensures Includes(hay, needle) <==> exists i: nat :: OccursAt(hay, needle, i)
  {
    if Includes(hay, needle) {
      var i := OccurrenceFromIncludes(hay, needle);
    }
    if exists i: nat :: OccursAt(hay, needle, i) {
      var i: nat :| OccursAt(hay, needle, i);
      IncludesFromOccurrence(hay, needle, i);
    }
  }

  /** The empty string is included in every string. */
  lemma IncludesEmpty(hay: string)
    ensures Includes(hay, [])
  {
    assert hay[..0] == [];
  }

  /** JavaScript's white space and line terminators, as `trim` removes them. */
  predicate IsSpace(c: char)
  {
    var n := c as int;
    n == 0x09 || n == 0x0A || n == 0x0B || n == 0x0C || n == 0x0D || n == 0x20
    || n == 0xA0 || n == 0x1680 || (0x2000 <= n <= 0x200A) || n == 0x2028
    || n == 0x2029 || n == 0x202F || n == 0x205F || n == 0x3000 || n == 0xFEFF
  }

  function TrimStart(s: string): string
    decreases |s|
  {
    if s != [] && IsSpace(s[0]) then TrimStart(s[1..]) else s
  }

  function TrimEnd(s: string): string
    decreases |s|
  {
    if s != [] && IsSpace(s[|s| - 1]) then TrimEnd(s[..|s| - 1]) else s
  }

  /** `s.trim()` */
  function Trim(s: string): string
  {
    TrimEnd(TrimStart(s))
  }

  lemma {:induction false} TrimStartCut(s: string) returns (i: nat)
    ensures i <= |s| && TrimStart(s) == s[i..]
    ensures forall k :: 0 <= k < i ==> IsSpace(s[k])
    ensures i < |s| ==> !IsSpace(s[i])
    decreases |s|
  {
    if s != [] && IsSpace(s[0]) {
      var i' := TrimStartCut(s[1..]);
      i := i' + 1;
      assert s[1..][i'..] == s[i..];
      forall k | 0 <= k < i ensures IsSpace(s[k]) {
        if k > 0 { assert s[k] == s[1..][k - 1]; }
      }
    } else {
      i := 0;
    }
  }

  lemma {:induction false} TrimEndCut(s: string) returns (j: nat)
    ensures j <= |s| && TrimEnd(s) == s[..j]
    ensures forall k :: j <= k < |s| ==> IsSpace(s[k])
    ensures j > 0 ==> !IsSpace(s[j - 1])
    decreases |s|
  {
    if s != [] && IsSpace(s[|s| - 1]) {
      j := TrimEndCut(s[..|s| - 1]);
      assert s[..|s| - 1][..j] == s[..j];
      forall k | j <= k < |s| ensures IsSpace(s[k]) {
        if k < |s| - 1 { assert s[k] == s[..|s| - 1][k]; }
      }
    } else {
      j := |s|;
    }
  }

  /**
   * `trim` returns the slice `s[i..j]` obtained by dropping the leading and
   * trailing white space and nothing else: everything outside the slice is
   * white space, and a non-empty slice starts and ends with a non-space.
   */
  lemma TrimCut(s: string) returns (i: nat, j: nat)
    ensures i <= j <= |s| && Trim(s) == s[i..j]
    ensures forall k :: 0 <= k < i ==> IsSpace(s[k])
    ensures forall k :: j <= k < |s| ==> IsSpace(s[k])
    ensures i < j ==> !IsSpace(s[i]) && !IsSpace(s[j - 1])
  {
    i := TrimStartCut(s);
    var t := s[i..];
    var j' := TrimEndCut(t);
    j := i + j';
    assert t[..j'] == s[i..j];
    forall k | j <= k < |s| ensures IsSpace(s[k]) {
      assert s[k] == t[k - i];
    }
    if i < j {
      assert s[j - 1] == t[j' - 1];
    }
  }

  /** A string trims to empty exactly when it is all white space. */
  lemma TrimEmptyIff(s: string)
    ensures Trim(s) == [] <==> forall k :: 0 <= k < |s| ==> IsSpace(s[k])
  {
    var i, j := TrimCut(s);
    if Trim(s) == [] {
      assert i == j;
      forall k | 0 <= k < |s| ensures IsSpace(s[k]) {
        if k >= i { assert k >= j; }
      }
    }
  }

  // ---------------------------------------------------------------------------
  // Math.round of a percentage

  /**
   * `Math.round(part / whole * 100)` for a positive `whole`, in exact integer
   * arithmetic: the nearest integer to 100·part/whole, halves rounded up.
   */
  function RoundedPercent(part: nat, whole: nat): (r: nat)
    requires whole > 0
    ensures 2 * whole * r <= 200 * part + whole < 2 * whole * (r + 1)
    ensures part <= whole ==> r <= 100
  {
    var a, b := 200 * part + whole, 2 * whole;
    var r := a / b;
    DivBounds(a, b);
    assert part <= whole ==> r <= 100 by {
      if part <= whole && r > 100 {
        MulMono(b, 101, r);
      }
    }
    r
  }

  /** Floor division brackets its dividend. */
  lemma DivBounds(a: nat, b: nat)
    requires b > 0
    ensures b * (a / b) <= a < b * (a / b + 1)
  {
    var q := a / b;
    assert a == b * q + a % b;
    assert b * (q + 1) == b * q + b;
  }

  lemma MulMono(b: nat, x: nat, y: nat)
    requires x <= y
    ensures b * x <= b * y
  {
  }
}
