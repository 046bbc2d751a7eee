/** Optional values: the model's stand-in for JavaScript's `undefined`/`null`. */
module Wrappers {

  datatype Option<+T> = None | Some(value: T) {
    function GetOr(default: T): T {
      if Some? then value else default
    }
  }

  /** JavaScript truthiness of an optional string: absent and "" are falsy. */
  predicate Truthy(s: Option<string>) {
    s.Some? && s.value != ""
  }

  /** No element occurs twice. */
  predicate NoDuplicates<T(==)>(s: seq<T>) {
    forall i, j :: 0 <= i < j < |s| ==> s[i] != s[j]
  }

  /** The position of the first occurrence of `x` in `s`. */
  function FirstPos<T(==)>(s: seq<T>, x: T): (i: nat)
    requires x in s
    ensures i < |s| && s[i] == x && x !in s[..i]
  {
    if s[0] == x then 0
    else
      var i := 1 + FirstPos(s[1..], x);
      assert s[..i] == [s[0]] + s[1..][..i - 1];
      i
  }

  /** Only one position holds the first occurrence. */
  lemma FirstPosUnique<T>(s: seq<T>, x: T, i: nat)
    requires i < |s| && s[i] == x && x !in s[..i]
    ensures FirstPos(s, x) == i
  {
    var k := FirstPos(s, x);
    forall j | 0 <= j < i
      ensures s[j] != x
    {
      assert s[j] == s[..i][j];
    }
    forall j | 0 <= j < k
      ensures s[j] != x
    {
      assert s[j] == s[..k][j];
    }
  }

  /** The elements of `r` that occur in `s` appear in the order of their
      first occurrences in `s`. */
  predicate InFirstOrder<T(==)>(s: seq<T>, r: seq<T>) {
    forall i, j :: 0 <= i < j < |r| && r[i] in s && r[j] in s ==> FirstPos(s, r[i]) < FirstPos(s, r[j])
  }

  /** Dropping the last element keeps the first occurrence of every element
      still present. */
  lemma FirstPosInit<T>(s: seq<T>, x: T)
    requires s != [] && x in s[..|s| - 1]
    ensures FirstPos(s, x) == FirstPos(s[..|s| - 1], x)
  {
    var init := s[..|s| - 1];
    var p := FirstPos(init, x);
    assert s[..p] == init[..p];
    FirstPosUnique(s, x, p);
  }

  /** Appending one element to a list keeps it in first-occurrence order, and
      an element new to the list may follow it. */
  lemma InFirstOrderSnoc<T>(s: seq<T>, r: seq<T>)
    requires s != []
    requires forall x :: x in r ==> x in s[..|s| - 1]
    requires InFirstOrder(s[..|s| - 1], r)
    ensures InFirstOrder(s, r)
    ensures s[|s| - 1] !in s[..|s| - 1] ==> InFirstOrder(s, r + [s[|s| - 1]])
  {
    var init := s[..|s| - 1];
    var last := s[|s| - 1];
    assert s == init + [last];
    forall i, j | 0 <= i < j < |r| && r[i] in s && r[j] in s
      ensures FirstPos(s, r[i]) < FirstPos(s, r[j])
    {
      assert r[i] in r && r[j] in r;
      FirstPosInit(s, r[i]);
      FirstPosInit(s, r[j]);
    }
    if last !in init {
      FirstPosUnique(s, last, |s| - 1);
      var r' := r + [last];
      forall i, j | 0 <= i < j < |r'| && r'[i] in s && r'[j] in s
        ensures FirstPos(s, r'[i]) < FirstPos(s, r'[j])
      {
        assert r'[i] == r[i];
        if j < |r| {
          assert r'[j] == r[j];
        } else {
          assert r[i] in r;
          FirstPosInit(s, r[i]);
        }
      }
    }
  }

  /** `[...new Set(s)]`: the first occurrence of every element, in order. */
  function Dedup<T(==,!new)>(s: seq<T>): (r: seq<T>)
    ensures forall x :: x in r <==> x in s
    ensures NoDuplicates(r)
    ensures |r| <= |s|
    ensures InFirstOrder(s, r)
    ensures NoDuplicates(s) ==> r == s
  {
    if s == [] then []
    else
      var r := Dedup(s[..|s| - 1]);
      InFirstOrderSnoc(s, r);
      if s[|s| - 1] in r then r else r + [s[|s| - 1]]
  }

  /** Decimal digits of a natural number, as string interpolation writes it. */
  function NatToString(n: nat): (s: string)
    ensures |s| >= 1
    ensures forall i :: 0 <= i < |s| ==> '0' <= s[i] <= '9'
  {
    var d := ['0' + (n % 10) as char];
    if n < 10 then d else NatToString(n / 10) + d
  }
}
