/** The string helpers: `pick`, the in-place Fisher–Yates `shuffle`, the
    generated password and OTP, and the token check's missing-token branch.
    `Math.random` is an oracle `random` whose k-th draw is `random(k)`, a real
    in [0, 1); each helper takes the index of its first draw and returns the
    index after its last one. */
module Helper {
  import opened Wrappers

  /** Every draw of the oracle lies in [0, 1). */
  ghost predicate Uniform(random: nat -> real) {
    forall k :: 0.0 <= random(k) < 1.0
  }

  /** `Math.floor(r * n)`. */
  function Scaled(r: real, n: int): int {
    (r * n as real).Floor
  }

  /** A draw scaled to a positive bound is an index below it. */
  lemma ScaledBound(r: real, n: int)
    requires 0.0 <= r < 1.0 && n > 0
    ensures 0 <= Scaled(r, n) < n
  {
    assert r * n as real < n as real by {
      assert (1.0 - r) * n as real > 0.0;
    }
  }

  /** How many characters `pick(min, max)` draws: `min` without a `max`,
      otherwise `min + floor(random * (max - min + 1))`. */
  function PickCount(min: int, max: Option<int>, r: real): (n: int)
    requires 0.0 <= r < 1.0
    ensures max.None? ==> n == min
    ensures max.Some? && min <= max.value ==> min <= n <= max.value
  {
    if max.None? then min
    else
      var width := max.value - min + 1;
      if width > 0 then
        ScaledBound(r, width);
        min + Scaled(r, width)
      else min + Scaled(r, width)
  }

  /** `s.charAt(Math.floor(r * s.length))`: one character of `s`, or ""
      on the empty string. */
  function CharAt(s: string, r: real): (c: string)
    requires 0.0 <= r < 1.0
    ensures s == [] ==> c == []
    ensures s != [] ==> |c| == 1 && c[0] in s
  {
    if s == [] then []
    else
      ScaledBound(r, |s|);
      [s[Scaled(r, |s|)]]
  }

  /** The characters `count` rounds of `pick`'s loop append, with draws
      taken from `first` on. */
  function Picked(s: string, random: nat -> real, first: nat, count: nat): (chars: string)
    requires Uniform(random)
    ensures s != [] ==> |chars| == count
    ensures s == [] ==> chars == []
    ensures forall i :: 0 <= i < |chars| ==> chars[i] in s
  {
    if count == 0 then []
    else Picked(s, random, first, count - 1) + CharAt(s, random(first + count - 1))
  }

  /** `String.prototype.pick(min, max)`: draws the count (only when `max` is
      given), then appends `charAt(floor(random * length))` that many times. */
  method Pick(s: string, min: int, max: Option<int>, random: nat -> real, from: nat)
    returns (chars: string, next: nat)
    requires Uniform(random)
    ensures var first := if max.Some? then from + 1 else from;
            var n := PickCount(min, max, random(from));
            var count := if n < 0 then 0 else n;
            chars == Picked(s, random, first, count) && next == first + count
    ensures s != [] ==> |chars| == (var n := PickCount(min, max, random(from)); if n < 0 then 0 else n)
    ensures s != [] && max.None? && min >= 0 ==> |chars| == min
    ensures s != [] && max.Some? && 0 <= min <= max.value ==> min <= |chars| <= max.value
    ensures forall i :: 0 <= i < |chars| ==> chars[i] in s
  {
    var n := PickCount(min, max, random(from));
    next := if max.Some? then from + 1 else from;
    ghost var first := next;
    chars := "";
    var i := 0;
    while i < n
      invariant 0 <= i && (n >= 0 ==> i <= n) && (n < 0 ==> i == 0)
      invariant next == first + i
      invariant chars == Picked(s, random, first, i)
    {
      chars := chars + CharAt(s, random(next));
      next := next + 1;
      i := i + 1;
    }
  }

  /** `s` with the cells `i` and `j` exchanged. */
  function Swap(s: seq<char>, i: nat, j: nat): (r: seq<char>)
    requires i < |s| && j < |s|
    ensures |r| == |s| && r[i] == s[j] && r[j] == s[i]
    ensures forall k :: 0 <= k < |s| && k != i && k != j ==> r[k] == s[k]
  {
    s[i := s[j]][j := s[i]]
  }

  lemma SwapPermutes(s: seq<char>, i: nat, j: nat)
    requires i < |s| && j < |s|
    ensures multiset(Swap(s, i, j)) == multiset(s)
  {
    var t := s[i := s[j]];
    assert multiset(t) == multiset(s) - multiset{s[i]} + multiset{s[j]};
    assert multiset(t[j := s[i]]) == multiset(t) - multiset{t[j]} + multiset{s[i]};
  }

  /** Fisher–Yates from position `top` down to 1: cell `top` is exchanged
      with the cell `floor(random * (top + 1))`, draws taken from `k` on. */
  function ShuffleFrom(s: seq<char>, top: nat, random: nat -> real, k: nat): seq<char>
    requires Uniform(random) && top < |s|
    decreases top
  {
    if top == 0 then s
    else
      ScaledBound(random(k), top + 1);
      ShuffleFrom(Swap(s, Scaled(random(k), top + 1), top), top - 1, random, k + 1)
  }

  /** The shuffle is a permutation. */
  lemma {:induction false} ShuffleFromPermutes(s: seq<char>, top: nat, random: nat -> real, k: nat)
    requires Uniform(random) && top < |s|
    ensures |ShuffleFrom(s, top, random, k)| == |s|
    ensures multiset(ShuffleFrom(s, top, random, k)) == multiset(s)
    decreases top
  {
    if top > 0 {
      ScaledBound(random(k), top + 1);
      var c := Scaled(random(k), top + 1);
      SwapPermutes(s, c, top);
      ShuffleFromPermutes(Swap(s, c, top), top - 1, random, k + 1);
    }
  }

  /** The `while (top)` loop of `shuffle` on the character array. */
  method ShuffleInPlace(a: array<char>, random: nat -> real, from: nat) returns (next: nat)
    requires Uniform(random)
    modifies a
    ensures a.Length == 0 ==> a[..] == old(a[..]) && next == from
    ensures a.Length > 0 ==> a[..] == ShuffleFrom(old(a[..]), a.Length - 1, random, from)
                             && next == from + a.Length - 1
  {
    next := from;
    var top := a.Length;
    if top != 0 {
      top := top - 1;
      while top != 0
        invariant 0 <= top < a.Length
        invariant next == from + (a.Length - 1 - top)
        invariant ShuffleFrom(a[..], top, random, next) == ShuffleFrom(old(a[..]), a.Length - 1, random, from)
        decreases top
      {
        ScaledBound(random(next), top + 1);
        var current := Scaled(random(next), top + 1);
        ghost var before := a[..];
        a[current], a[top] := a[top], a[current];
        assert a[..] == Swap(before, current, top);
        next := next + 1;
        top := top - 1;
      }
    }
  }

  /** `String.prototype.shuffle`: split, shuffle in place, join. The result
      is a permutation of the input; the empty string stays empty. */
  method Shuffle(s: string, random: nat -> real, from: nat) returns (r: string, next: nat)
    requires Uniform(random)
    ensures |r| == |s| && multiset(r) == multiset(s)
    ensures s == [] ==> r == [] && next == from
    ensures s != [] ==> r == ShuffleFrom(s, |s| - 1, random, from) && next == from + |s| - 1
  {
    var a := new char[|s|](i requires 0 <= i < |s| => s[i]);
    assert a[..] == s;
    next := ShuffleInPlace(a, random, from);
    r := a[..];
    if s != [] {
      ShuffleFromPermutes(s, |s| - 1, random, from);
    }
  }

  const Specials := "!@#$%^&*()_+{}:\"<>?|[];',./`~"
  const Lowercase := "abcdefghijklmnopqrstuvwxyz"
  const Uppercase := "ABCDEFGHIJKLMNOPQRSTUVWXYZ"
  const Numbers := "0123456789"
  const All := Specials + Lowercase + Uppercase + Numbers

  /** `generateNewPWD`: one special, one lowercase and one uppercase
      character, three to ten from the whole alphabet, shuffled. */
  method GenerateNewPwd(random: nat -> real, from: nat) returns (password: string, next: nat)
    requires Uniform(random)
    ensures 6 <= |password| <= 13
    ensures exists i :: 0 <= i < |password| && password[i] in Specials
    ensures exists i :: 0 <= i < |password| && password[i] in Lowercase
    ensures exists i :: 0 <= i < |password| && password[i] in Uppercase
    ensures forall i :: 0 <= i < |password| ==> password[i] in All
  {
    var special, lower, upper, rest;
    special, next := Pick(Specials, 1, None, random, from);
    lower, next := Pick(Lowercase, 1, None, random, next);
    upper, next := Pick(Uppercase, 1, None, random, next);
    rest, next := Pick(All, 3, Some(10), random, next);
    var joined := "" + special + lower + upper + rest;
    assert |special| == 1 && |lower| == 1 && |upper| == 1 && 3 <= |rest| <= 10;
    assert joined[0] in Specials && joined[1] in Lowercase && joined[2] in Uppercase;
    assert forall i :: 0 <= i < |joined| ==> joined[i] in All;
    password, next := Shuffle(joined, random, next);
    assert joined[0] in multiset(password) && joined[1] in multiset(password) && joined[2] in multiset(password);
    forall i | 0 <= i < |password| ensures password[i] in All {
      assert password[i] in multiset(joined);
    }
  }

  /** `generateNewOTP`: the fixed six-digit code. */
  function GenerateNewOtp(): (otp: string)
    ensures |otp| == 6
    ensures forall i :: 0 <= i < |otp| ==> '0' <= otp[i] <= '9'
  {
    "123456"
  }

  /** What a JWT verification of a token yields: the decoded `{id, email}`, or
      an error. */
  datatype Verified = Decoded(id: nat, email: Option<string>) | Rejected

  /** `verifyAccessToken`'s result `{err, decodedData}`. */
  datatype TokenCheck = TokenCheck(err: bool, decodedData: Option<(nat, Option<string>)>)

  /** `verifyAccessToken`: a falsy token is an error with no decoded data;
      otherwise the verification decides. */
  function VerifyAccessToken(token: Option<string>, verify: string -> Verified): (r: TokenCheck)
    ensures r.err <==> r.decodedData.None?
    ensures !Truthy(token) ==> r.err
    ensures Truthy(token) ==> (r.err <==> verify(token.value).Rejected?)
    ensures r.decodedData.Some? ==>
              Truthy(token) && verify(token.value) == Decoded(r.decodedData.value.0, r.decodedData.value.1)
  {
    if !Truthy(token) then TokenCheck(true, None)
    else match verify(token.value)
      case Decoded(id, email) => TokenCheck(false, Some((id, email)))
      case Rejected => TokenCheck(true, None)
  }
}
