/** Values and string helpers shared by the storefront model. */
module Common {

  /** An optional value; JavaScript's `undefined` / `null` become `None`. */
  datatype Option<+T> = None | Some(value: T) {
    /** The `??` operator: the value if present, otherwise the default. */
    function GetOr(default: T): T {
      match this
      case Some(v) => v
      case None => default
    }
  }

  /** JavaScript truthiness of an optional string: present and not empty. */
  predicate Truthy(s: Option<string>) {
    s.Some? && |s.value| > 0
  }

  predicate IsDigit(c: char) {
    '0' <= c <= '9'
  }

  predicate AllDigits(s: string) {
    forall i :: 0 <= i < |s| ==> IsDigit(s[i])
  }

  /** `s.startsWith(prefix)`. */
  predicate StartsWith(s: string, prefix: string) {
    |prefix| <= |s| && s[..|prefix|] == prefix
  }

  predicate EndsWith(s: string, suffix: string) {
    |suffix| <= |s| && s[|s| - |suffix|..] == suffix
  }

  function DigitChar(d: nat): (c: char)
    requires d < 10
    ensures IsDigit(c)
  {
    ('0' as int + d) as char
  }

  function DigitValue(c: char): (d: nat)
    requires IsDigit(c)
    ensures d < 10 && DigitChar(d) == c
  {
    c as int - '0' as int
  }

  /** `String(n)` of a natural number: its decimal digits without leading zeros. */
  function DecimalString(n: nat): (r: string)
    ensures |r| >= 1 && AllDigits(r)
    ensures r[0] == '0' ==> n == 0
    decreases n
  {
    if n < 10 then [DigitChar(n)] else DecimalString(n / 10) + [DigitChar(n % 10)]
  }

  /** The value of a string of decimal digits. */
  function ParseDigits(s: string): nat
    requires AllDigits(s)
  {
    if s == [] then 0 else ParseDigits(s[..|s| - 1]) * 10 + DigitValue(s[|s| - 1])
  }

  /** Printing a number and reading it back gives the number. */
  lemma {:induction false} ParseDecimalString(n: nat)
    ensures ParseDigits(DecimalString(n)) == n
    decreases n
  {
    if n >= 10 {
      var s := DecimalString(n);
      assert s[..|s| - 1] == DecimalString(n / 10);
      ParseDecimalString(n / 10);
    }
  }

  /** `Array.prototype.filter`: the elements satisfying `keep`, in order. */
  function Filter<T>(s: seq<T>, keep: T -> bool): (r: seq<T>)
    ensures |r| <= |s|
    ensures forall i :: 0 <= i < |r| ==> r[i] in s && keep(r[i])
    ensures forall i :: 0 <= i < |s| && keep(s[i]) ==> s[i] in r
  {
    if s == [] then []
    else (if keep(s[0]) then [s[0]] else []) + Filter(s[1..], keep)
  }

  /** Filtering a sequence with a head: the head first, when kept, then the filtered rest. */
  lemma FilterCons<T>(x: T, rest: seq<T>, keep: T -> bool)
    ensures Filter([x] + rest, keep) == (if keep(x) then [x] else []) + Filter(rest, keep)
  {
    assert ([x] + rest)[1..] == rest;
  }

  /** Filtering keeps every copy of a kept value and no copy of a dropped one. */
  lemma {:induction false} FilterCount<T>(s: seq<T>, keep: T -> bool, x: T)
    ensures multiset(Filter(s, keep))[x] == if keep(x) then multiset(s)[x] else 0
  {
    if s != [] {
      FilterCount(s[1..], keep, x);
      assert s == [s[0]] + s[1..];
      assert multiset(s) == multiset{s[0]} + multiset(s[1..]);
    }
  }

  /** No two elements share a key. */
  ghost predicate DistinctKeys<T>(s: seq<T>, key: T -> nat) {
    forall a, b :: 0 <= a < b < |s| ==> key(s[a]) != key(s[b])
  }

  lemma DistinctKeysTail<T>(x: T, rest: seq<T>, key: T -> nat)
    requires DistinctKeys([x] + rest, key)
    ensures DistinctKeys(rest, key)
    ensures forall m :: 0 <= m < |rest| ==> key(rest[m]) != key(x)
  {
    var all := [x] + rest;
    forall a, b | 0 <= a < b < |rest| ensures key(rest[a]) != key(rest[b]) {
      assert rest[a] == all[a + 1] && rest[b] == all[b + 1];
    }
    forall m | 0 <= m < |rest| ensures key(rest[m]) != key(x) {
      assert all[0] == x && rest[m] == all[m + 1];
    }
  }

  lemma DistinctKeysCons<T>(x: T, r: seq<T>, rest: seq<T>, key: T -> nat)
    requires DistinctKeys(r, key)
    requires forall k :: 0 <= k < |r| ==> r[k] in rest
    requires forall m :: 0 <= m < |rest| ==> key(rest[m]) != key(x)
    ensures DistinctKeys([x] + r, key)
  {
    var all := [x] + r;
    forall a, b | 0 <= a < b < |all| ensures key(all[a]) != key(all[b]) {
      assert all[b] == r[b - 1];
      if a == 0 {
        var m :| 0 <= m < |rest| && rest[m] == r[b - 1];
      } else {
        assert all[a] == r[a - 1];
      }
    }
  }

  /** Filtering a sequence whose keys are distinct leaves them distinct. */
  lemma {:induction false} FilterKeepsDistinct<T>(s: seq<T>, key: T -> nat, keep: T -> bool)
    requires DistinctKeys(s, key)
    ensures DistinctKeys(Filter(s, keep), key)
  {
    if s != [] {
      var x := s[0];
      var rest := s[1..];
      assert s == [x] + rest;
      DistinctKeysTail(x, rest, key);
      FilterKeepsDistinct(rest, key, keep);
      FilterCons(x, rest, keep);
      if keep(x) {
        DistinctKeysCons(x, Filter(rest, keep), rest, key);
      }
    }
  }

  /** A property every element has is kept by filtering. */
  lemma FilterKeepsProperty<T>(s: seq<T>, keep: T -> bool, good: T -> bool)
    requires forall i :: 0 <= i < |s| ==> good(s[i])
    ensures forall i :: 0 <= i < |Filter(s, keep)| ==> good(Filter(s, keep)[i])
  {
    var f := Filter(s, keep);
    forall i | 0 <= i < |f| ensures good(f[i]) {
      var j :| 0 <= j < |s| && s[j] == f[i];
    }
  }

  /** Mapping the identity changes nothing. */
  lemma MapIdentity<T>(f: T -> T, s: seq<T>)
    requires forall x :: f(x) == x
    ensures MapSeq(f, s) == s
  {
  }

  /** Filtering a sequence extended by one element extends the result by that element when it is kept. */
  lemma {:induction false} FilterSnoc<T>(s: seq<T>, x: T, keep: T -> bool)
    ensures Filter(s + [x], keep) == Filter(s, keep) + (if keep(x) then [x] else [])
  {
    if s != [] {
      assert (s + [x])[1..] == s[1..] + [x];
      FilterSnoc(s[1..], x, keep);
    }
  }

  /** `Array.prototype.map`. */
  function MapSeq<T, U>(f: T -> U, s: seq<T>): (r: seq<U>)
    ensures |r| == |s|
    ensures forall i :: 0 <= i < |s| ==> r[i] == f(s[i])
  {
    seq(|s|, i requires 0 <= i < |s| => f(s[i]))
  }

  lemma MapSeqSnoc<T, U>(f: T -> U, s: seq<T>, x: T)
    ensures MapSeq(f, s + [x]) == MapSeq(f, s) + [f(x)]
  {
    assert forall i :: 0 <= i < |s| ==> (s + [x])[i] == s[i];
  }

  /** `a` is `b` with some elements deleted, the rest kept in order. */
  ghost predicate IsSubsequence<T>(a: seq<T>, b: seq<T>)
    decreases |b|
  {
    if a == [] then true
    else if b == [] then false
    else if a[0] == b[0] then IsSubsequence(a[1..], b[1..])
    else IsSubsequence(a, b[1..])
  }

  /** Filtering keeps the surviving elements in their original order. */
  lemma {:induction false} FilterIsSubsequence<T>(s: seq<T>, keep: T -> bool)
    ensures IsSubsequence(Filter(s, keep), s)
  {
    if s != [] {
      FilterIsSubsequence(s[1..], keep);
      if !keep(s[0]) {
        assert Filter(s, keep) == Filter(s[1..], keep);
        SubsequenceOfTail(Filter(s, keep), s);
      }
    }
  }

  lemma {:induction false} SubsequenceOfTail<T>(a: seq<T>, b: seq<T>)
    requires b != [] && IsSubsequence(a, b[1..])
    ensures IsSubsequence(a, b)
    decreases |b|, |a|
  {
    if a != [] && a[0] == b[0] {
      SubsequenceDropHead(a, b[1..]);
    }
  }

  lemma {:induction false} SubsequenceDropHead<T>(a: seq<T>, b: seq<T>)
    requires a != [] && IsSubsequence(a, b)
    ensures IsSubsequence(a[1..], b)
    decreases |b|, |a|
  {
    if b != [] {
      if a[0] == b[0] {
        SubsequenceOfTail(a[1..], b);
      } else {
        SubsequenceDropHead(a, b[1..]);
        SubsequenceOfTail(a[1..], b);
      }
    }
  }
}
