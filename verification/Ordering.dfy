/** Byte-wise string order, elements of sequences, and the sorting that the inventory, the
    capture roots and the remote listing rely on. */
module Ordering {

  /** The bytes a character takes in UTF-8 (section 3 of RFC 3629). */
  function Utf8Width(c: char): (n: nat)
    ensures 1 <= n <= 4
  {
    if c < '\U{80}' then 1 else if c < '\U{800}' then 2 else if c < '\U{10000}' then 3 else 4
  }

  /** How many code points fit into `n` bytes of UTF-8: one byte carries seven bits; in more bytes
      the first carries `7 - n` bits and every other six. */
  function Utf8Capacity(n: nat): nat
    requires 1 <= n <= 4
  {
    if n == 1 then TwoTo(7) else TwoTo((7 - n) + 6 * (n - 1))
  }

  function TwoTo(bits: nat): nat {
    if bits == 0 then 1 else 2 * TwoTo(bits - 1)
  }

  /** A character takes the fewest bytes that have room for its code point. */
  lemma {:induction false} Utf8WidthIsLeast(c: char)
    ensures var n := Utf8Width(c);
      (c as int) < Utf8Capacity(n) && (n > 1 ==> Utf8Capacity(n - 1) <= c as int)
  {
    TwoToMore(7, 4);
    TwoToMore(11, 5);
    TwoToMore(16, 5);
    assert TwoTo(7) == 128 && TwoTo(4) == 16 && TwoTo(5) == 32;
  }

  lemma {:induction false} TwoToMore(a: nat, b: nat)
    ensures TwoTo(a + b) == TwoTo(a) * TwoTo(b)
  {
    if b > 0 {
      TwoToMore(a, b - 1);
    }
  }

  /** `str::len`: the length of a string in bytes. */
  function Utf8Length(s: string): nat {
    if s == [] then 0 else Utf8Width(s[0]) + Utf8Length(s[1..])
  }

  lemma {:induction false} AsciiLength(s: string)
    requires forall i | 0 <= i < |s| :: s[i] < '\U{80}'
    ensures Utf8Length(s) == |s|
  {
    if s != [] {
      AsciiLength(s[1..]);
    }
  }

  lemma {:induction false} Utf8LengthOfConcatenation(s: string, t: string)
    ensures Utf8Length(s + t) == Utf8Length(s) + Utf8Length(t)
    ensures t != [] ==> Utf8Length(t) > 0
  {
    if s == [] {
      assert s + t == t;
    } else {
      assert (s + t)[1..] == s[1..] + t;
      Utf8LengthOfConcatenation(s[1..], t);
    }
  }

  /** `str` comparison: code points order as their UTF-8 bytes do; lexicographic, a proper prefix comes first. */
  predicate StringLe(a: string, b: string) {
    a == [] || (b != [] && (a[0] < b[0] || (a[0] == b[0] && StringLe(a[1..], b[1..]))))
  }

  lemma StringLeTotal(a: string, b: string)
    ensures StringLe(a, b) || StringLe(b, a)
    ensures StringLe(a, b) && StringLe(b, a) ==> a == b
  {
    if a != [] && b != [] {
      StringLeTotal(a[1..], b[1..]);
      assert a == [a[0]] + a[1..] && b == [b[0]] + b[1..];
    }
  }

  lemma StringLeTransitive(a: string, b: string, c: string)
    requires StringLe(a, b) && StringLe(b, c)
    ensures StringLe(a, c)
  {
    if a != [] && a[0] == b[0] == c[0] {
      StringLeTransitive(a[1..], b[1..], c[1..]);
    }
  }

  /** Any two elements compare, consistently; different elements may compare equal. */
  ghost predicate TotalPreorder<T(!new)>(le: (T, T) -> bool) {
    && (forall x, y :: le(x, y) || le(y, x))
    && (forall x, y, z :: le(x, y) && le(y, z) ==> le(x, z))
  }

  ghost predicate TotalOrder<T(!new)>(le: (T, T) -> bool) {
    && TotalPreorder(le)
    && (forall x, y :: le(x, y) && le(y, x) ==> x == y)
  }

  predicate Sorted<T>(le: (T, T) -> bool, s: seq<T>) {
    forall i, j | 0 <= i < j < |s| :: le(s[i], s[j])
  }

  function Insert<T>(le: (T, T) -> bool, x: T, s: seq<T>): (r: seq<T>)
    ensures multiset(r) == multiset(s) + multiset{x}
  {
    if s == [] || le(x, s[0]) then
      [x] + s
    else
      assert s == [s[0]] + s[1..];
      [s[0]] + Insert(le, x, s[1..])
  }

  function Sort<T>(le: (T, T) -> bool, s: seq<T>): (r: seq<T>)
    ensures multiset(r) == multiset(s)
  {
    if s == [] then [] else
      assert s == [s[0]] + s[1..];
      Insert(le, s[0], Sort(le, s[1..]))
  }

  /******* Elements *******/

  function SetOf<T>(s: seq<T>): set<T> { set i | 0 <= i < |s| :: s[i] }

  lemma SetOfAppend<T>(s: seq<T>, x: T)
    ensures SetOf(s + [x]) == SetOf(s) + {x}
  {
    assert forall i | 0 <= i < |s| :: (s + [x])[i] == s[i];
    assert (s + [x])[|s|] == x;
    forall y | y in SetOf(s) ensures y in SetOf(s + [x]) {
      var i :| 0 <= i < |s| && s[i] == y;
      assert (s + [x])[i] == y;
    }
  }

  predicate NoRepeats<T(==)>(s: seq<T>) { forall i, j | 0 <= i < j < |s| :: s[i] != s[j] }

  lemma {:induction false} NoDoubles<T>(s: seq<T>, x: T)
    requires NoRepeats(s)
    ensures multiset(s)[x] <= 1
  {
    if s != [] {
      assert s == [s[0]] + s[1..];
      NoDoubles(s[1..], x);
      if s[0] == x {
        assert x !in s[1..];
      }
    }
  }

  lemma SameDistinctElements<T>(s: seq<T>, t: seq<T>)
    requires NoRepeats(s) && NoRepeats(t) && forall x :: x in s <==> x in t
    ensures multiset(s) == multiset(t)
  {
    forall x ensures multiset(s)[x] == multiset(t)[x] {
      NoDoubles(s, x);
      NoDoubles(t, x);
      assert x in s <==> x in multiset(s);
      assert x in t <==> x in multiset(t);
    }
  }

  lemma {:induction false} NoRepeatsSurvivesReordering<T>(s: seq<T>, t: seq<T>)
    requires NoRepeats(s) && multiset(s) == multiset(t)
    ensures NoRepeats(t)
  {
    forall i, j | 0 <= i < j < |t| ensures t[i] != t[j] {
      NoDoubles(s, t[i]);
      assert t == t[..i] + [t[i]] + t[i + 1..j] + [t[j]] + t[j + 1..];
    }
  }

  /******* Sorting *******/

  lemma SameMultisetSameElements<T>(s: seq<T>, t: seq<T>)
    requires multiset(s) == multiset(t)
    ensures |s| == |t|
    ensures forall x :: x in s <==> x in t
  {
    assert |multiset(s)| == |s| && |multiset(t)| == |t|;
    assert forall x :: x in s <==> x in multiset(s);
    assert forall x :: x in t <==> x in multiset(t);
  }

  lemma {:induction false} InsertIsSorted<T(!new)>(le: (T, T) -> bool, x: T, s: seq<T>)
    requires TotalPreorder(le) && Sorted(le, s)
    ensures Sorted(le, Insert(le, x, s))
  {
    if s != [] && !le(x, s[0]) {
      InsertIsSorted(le, x, s[1..]);
      var r := Insert(le, x, s[1..]);
      assert multiset(r) == multiset(s[1..] + [x]);
      SameMultisetSameElements(r, s[1..] + [x]);
      forall i | 0 <= i < |r| ensures le(s[0], r[i]) {
        assert r[i] in r;
      }
    }
  }

  lemma {:induction false} SortIsSorted<T(!new)>(le: (T, T) -> bool, s: seq<T>)
    requires TotalPreorder(le)
    ensures Sorted(le, Sort(le, s))
  {
    if s != [] {
      SortIsSorted(le, s[1..]);
      InsertIsSorted(le, s[0], Sort(le, s[1..]));
    }
  }

  /** No two different elements of `s` compare equal. */
  predicate Antisymmetric<T(==)>(le: (T, T) -> bool, s: seq<T>) {
    forall i, j | 0 <= i < |s| && 0 <= j < |s| && le(s[i], s[j]) && le(s[j], s[i]) :: s[i] == s[j]
  }

  /** Two sorted sequences with the same elements are the same sequence. */
  lemma {:induction false} SortedIsUnique<T>(le: (T, T) -> bool, s: seq<T>, t: seq<T>)
    requires Sorted(le, s) && Sorted(le, t) && multiset(s) == multiset(t) && Antisymmetric(le, s)
    ensures s == t
  {
    SameMultisetSameElements(s, t);
    if s != [] {
      SameHead(le, s, t);
      SameTail(s, t);
      SortedIsUnique(le, s[1..], t[1..]);
      assert s == [s[0]] + s[1..] && t == [t[0]] + t[1..];
    }
  }

  lemma SameHead<T>(le: (T, T) -> bool, s: seq<T>, t: seq<T>)
    requires Sorted(le, s) && Sorted(le, t) && s != [] && t != [] && Antisymmetric(le, s)
    requires s[0] in t && t[0] in s
    ensures s[0] == t[0]
  {
    var i :| 0 <= i < |t| && t[i] == s[0];
    var j :| 0 <= j < |s| && s[j] == t[0];
    assert i == 0 || le(t[0], s[0]);
    assert j == 0 || le(s[0], t[0]);
  }

  lemma SameTail<T>(s: seq<T>, t: seq<T>)
    requires s != [] && t != [] && s[0] == t[0] && multiset(s) == multiset(t)
    ensures multiset(s[1..]) == multiset(t[1..])
  {
    assert s == [s[0]] + s[1..] && t == [t[0]] + t[1..];
    assert multiset(s[1..]) == multiset(s) - multiset{s[0]};
    assert multiset(t[1..]) == multiset(t) - multiset{t[0]};
  }
}
