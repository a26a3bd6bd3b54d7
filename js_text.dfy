/** The small part of JavaScript's value and string semantics that the
    copy-trading server and client rely on: optional (undefined) values and
    their truthiness, `a || default`, `String.prototype.split`,
    `String.prototype.includes`, `toLowerCase` on ASCII letters, `parseInt`
    and template rendering of numbers,
    `Array.prototype.findIndex` and `Array.prototype.filter`. */
module JsText {

  /** A value that may be `undefined`. */
  datatype Option<T> = None | Some(value: T)

  /** JavaScript truthiness of an optional string: `undefined` and `""` are falsy. */
  predicate Truthy(s: Option<string>) {
    s.Some? && s.value != ""
  }

  /** `s || fallback` on an optional string. */
  function OrElse(s: Option<string>, fallback: string): string {
    if Truthy(s) then s.value else fallback
  }

  /** How a template literal `${s}` renders an optional string. */
  function Render(s: Option<string>): string {
    if s.Some? then s.value else "undefined"
  }

  // ---------------------------------------------------------------------------
  // split

  /** `s.split(sep)` for a one-character separator: the maximal runs of
      characters between separators, always at least one part. */
  function Split(s: string, sep: char): (parts: seq<string>)
    ensures |parts| >= 1
  {
    if s == [] then [""]
    else
      var rest := Split(s[1..], sep);
      if s[0] == sep then [""] + rest
      else [[s[0]] + rest[0]] + rest[1..]
  }

  /** `parts.join(sep)`. */
  function Join(parts: seq<string>, sep: char): string {
    if |parts| == 0 then ""
    else if |parts| == 1 then parts[0]
    else parts[0] + [sep] + Join(parts[1..], sep)
  }

  /** Element `k` of `s.split(sep)`, or `undefined` past the end. */
  function Field(s: string, sep: char, k: nat): Option<string> {
    var parts := Split(s, sep);
    if k < |parts| then Some(parts[k]) else None
  }

  /** Joining the parts of a split gives back the string, and no part holds the separator. */
  lemma {:induction false} SplitJoin(s: string, sep: char)
    ensures Join(Split(s, sep), sep) == s
    ensures forall k :: 0 <= k < |Split(s, sep)| ==> sep !in Split(s, sep)[k]
  {
    if s != [] {
      var rest := Split(s[1..], sep);
      SplitJoin(s[1..], sep);
      if s[0] == sep {
        assert Split(s, sep) == [""] + rest;
        assert ([""] + rest)[1..] == rest;
        assert s == [sep] + s[1..];
      } else {
        var parts := [[s[0]] + rest[0]] + rest[1..];
        assert Split(s, sep) == parts;
        if |rest| == 1 {
          assert Join(rest, sep) == rest[0];
        } else {
          assert parts[1..] == rest[1..];
          assert Join(rest, sep) == rest[0] + [sep] + Join(rest[1..], sep);
        }
        assert s == [s[0]] + s[1..];
        forall k | 0 <= k < |parts| ensures sep !in parts[k] {
          if k > 0 { assert parts[k] == rest[k]; }
        }
      }
    }
  }

  /** A separator-free prefix only lengthens the first part of a split. */
  lemma {:induction false} SplitAfterSepFreePrefix(a: string, x: string, sep: char)
    requires sep !in a
    ensures Split(a + x, sep)[0] == a + Split(x, sep)[0]
    ensures Split(a + x, sep)[1..] == Split(x, sep)[1..]
  {
    if a != [] {
      SplitAfterSepFreePrefix(a[1..], x, sep);
      assert (a + x)[1..] == a[1..] + x;
      assert (a + x)[0] == a[0];
      assert [a[0]] + a[1..] == a;
    } else {
      assert a + x == x;
    }
  }

  /** `s` is `a`, a separator, `t`, then `rest`, where neither `a` nor `t`
      holds a separator and `rest` is empty or starts with one: `t` is the
      text between the first and the second separator. */
  predicate SecondWord(s: string, sep: char, a: string, t: string, rest: string) {
    && s == a + [sep] + t + rest && sep !in a && sep !in t
    && (rest == [] || rest[0] == sep)
  }

  lemma SecondFieldIsSecondWord(s: string, sep: char)
    requires |Split(s, sep)| >= 2
    ensures var parts := Split(s, sep);
      SecondWord(s, sep, parts[0], parts[1],
                 if |parts| == 2 then "" else [sep] + Join(parts[2..], sep))
  {
    var parts := Split(s, sep);
    SplitJoin(s, sep);
    var rest := if |parts| == 2 then "" else [sep] + Join(parts[2..], sep);
    assert parts[1..][1..] == parts[2..];
    assert Join(parts[1..], sep) == parts[1] + rest;
    assert s == parts[0] + [sep] + parts[1] + rest;
  }

  lemma SecondWordIsSecondField(s: string, sep: char, a: string, t: string, rest: string)
    requires SecondWord(s, sep, a, t, rest)
    ensures Field(s, sep, 1) == Some(t)
  {
    var x := [sep] + (t + rest);
    assert s == a + x;
    SplitAfterSepFreePrefix(a, x, sep);
    assert Split(x, sep) == [""] + Split(t + rest, sep);
    SplitAfterSepFreePrefix(t, rest, sep);
    if rest == [] {
      assert Split(rest, sep)[0] == "";
    } else {
      assert Split(rest, sep) == [""] + Split(rest[1..], sep);
    }
    assert Split(s, sep)[1] == Split(x, sep)[1] == Split(t + rest, sep)[0] == t;
  }

  /** The second field of `s.split(sep)` is exactly the text between the first
      and the second separator (or the end of `s`). */
  lemma SecondFieldIff(s: string, sep: char, t: string)
    ensures Field(s, sep, 1) == Some(t) <==> exists a, rest :: SecondWord(s, sep, a, t, rest)
  {
    if Field(s, sep, 1) == Some(t) {
      SecondFieldIsSecondWord(s, sep);
    }
    if exists a, rest :: SecondWord(s, sep, a, t, rest) {
      var a, rest :| SecondWord(s, sep, a, t, rest);
      SecondWordIsSecondField(s, sep, a, t, rest);
    }
  }

  // ---------------------------------------------------------------------------
  // includes

  /** `s.includes(sub)`. */
  predicate Contains(s: string, sub: string)
    decreases |s|
  {
    sub <= s || (s != [] && Contains(s[1..], sub))
  }

  /** `sub` occurs in `s` starting at position `i`. */
  predicate OccursAt(s: string, sub: string, i: int) {
    0 <= i <= |s| - |sub| && s[i..i + |sub|] == sub
  }

  /** `includes` holds exactly when `sub` occurs at some position of `s`. */
  lemma {:induction false} ContainsIff(s: string, sub: string)
    ensures Contains(s, sub) <==> exists i :: OccursAt(s, sub, i)
  {
    if s != [] {
      ContainsIff(s[1..], sub);
      if Contains(s[1..], sub) && !(sub <= s) {
        var i :| OccursAt(s[1..], sub, i);
        assert s[i + 1..i + 1 + |sub|] == s[1..][i..i + |sub|];
        assert OccursAt(s, sub, i + 1);
      }
      if sub <= s {
        assert OccursAt(s, sub, 0);
      }
      if exists i :: OccursAt(s, sub, i) {
        var i :| OccursAt(s, sub, i);
        if i == 0 {
          assert sub <= s;
        } else {
          assert s[1..][i - 1..i - 1 + |sub|] == s[i..i + |sub|];
          assert OccursAt(s[1..], sub, i - 1);
        }
      }
    } else {
      if exists i :: OccursAt(s, sub, i) {
        var i :| OccursAt(s, sub, i);
        assert sub == [];
      }
      if sub == [] {
        assert OccursAt(s, sub, 0);
      }
    }
  }

  // ---------------------------------------------------------------------------
  // toLowerCase

  function LowerChar(c: char): char {
    if 'A' <= c <= 'Z' then (c as int + 32) as char else c
  }

  /** `s.toLowerCase()`, restricted to ASCII letters. */
  function ToLower(s: string): (r: string)
    ensures |r| == |s|
    ensures forall i :: 0 <= i < |s| ==> r[i] == LowerChar(s[i])
    ensures forall i :: 0 <= i < |r| ==> !('A' <= r[i] <= 'Z')
  {
    seq(|s|, i requires 0 <= i < |s| => LowerChar(s[i]))
  }

  // ---------------------------------------------------------------------------
  // Decimal rendering of Date.now()

  function Digit(d: nat): char
    requires d < 10
  {
    "0123456789"[d]
  }

  /** The decimal text of a natural number, as `${n}` renders it. */
  function Decimal(n: nat): (r: string)
    ensures |r| >= 1
    ensures forall i :: 0 <= i < |r| ==> '0' <= r[i] <= '9'
  {
    if n < 10 then [Digit(n)] else Decimal(n / 10) + [Digit(n % 10)]
  }

  lemma DigitInjective(d: nat, e: nat)
    requires d < 10 && e < 10 && Digit(d) == Digit(e)
    ensures d == e
  {
  }

  /** Different numbers render differently, so the rendering determines the number. */
  lemma {:induction false} DecimalInjective(m: nat, n: nat)
    requires Decimal(m) == Decimal(n)
    ensures m == n
    decreases m
  {
    if m < 10 && n < 10 {
      DigitInjective(m, n);
    } else if m >= 10 && n >= 10 {
      var a, b := Decimal(m / 10), Decimal(n / 10);
      assert Decimal(m) == a + [Digit(m % 10)] && Decimal(n) == b + [Digit(n % 10)];
      assert |a| == |b|;
      assert a == Decimal(m)[..|a|] && b == Decimal(n)[..|b|];
      DecimalInjective(m / 10, n / 10);
      assert Decimal(m)[|a|] == Digit(m % 10) && Decimal(n)[|b|] == Digit(n % 10);
      DigitInjective(m % 10, n % 10);
    }
  }

  // ---------------------------------------------------------------------------
  // parseInt of a number

  /** `parseInt(x)` of a number written in plain decimal notation: the
      digits before the point, that is, truncation toward zero. */
  function Truncate(x: real): (n: int)
    ensures 0.0 <= x ==> 0 <= n && n as real <= x < n as real + 1.0
    ensures x < 0.0 ==> n <= 0 && n as real - 1.0 < x <= n as real
  {
    if x >= 0.0 then x.Floor else -((-x).Floor)
  }

  // ---------------------------------------------------------------------------
  // findIndex

  /** `s.findIndex(p)`, with `-1` as `None`: the first position whose element satisfies `p`. */
  function FindIndex<T>(s: seq<T>, p: T -> bool): (r: Option<nat>)
    ensures r.Some? ==> r.value < |s| && p(s[r.value])
    ensures r.Some? ==> forall j :: 0 <= j < r.value ==> !p(s[j])
    ensures r.None? <==> forall j :: 0 <= j < |s| ==> !p(s[j])
  {
    if s == [] then None
    else if p(s[0]) then Some(0)
    else
      match FindIndex(s[1..], p)
      case None => None
      case Some(k) => Some(k + 1)
  }

  // ---------------------------------------------------------------------------
  // filter

  lemma ConcatAssoc<T>(a: seq<T>, b: seq<T>, c: seq<T>)
    ensures a + b + c == a + (b + c)
  {
  }

  /** `s.filter(p)`. */
  function Keep<T>(s: seq<T>, p: T -> bool): seq<T> {
    if s == [] then []
    else (if p(s[0]) then [s[0]] else []) + Keep(s[1..], p)
  }

  /** `a` appears in `b` in the same relative order. */
  predicate Subsequence<T(==)>(a: seq<T>, b: seq<T>)
    decreases |b|
  {
    if a == [] then true
    else if b == [] then false
    else (a[0] == b[0] && Subsequence(a[1..], b[1..])) || Subsequence(a, b[1..])
  }

  /** Filtering keeps exactly the elements that satisfy the predicate, each
      as often as it occurs, in their original order, and never lengthens
      the list. */
  lemma KeepSelects<T>(s: seq<T>, p: T -> bool)
    ensures forall x :: x in Keep(s, p) ==> x in s && p(x)
    ensures forall x :: x in s && p(x) ==> x in Keep(s, p)
    ensures forall x :: multiset(Keep(s, p))[x] == if p(x) then multiset(s)[x] else 0
    ensures |Keep(s, p)| <= |s|
    ensures Subsequence(Keep(s, p), s)
  {
    KeepCounts(s, p);
    KeepOrder(s, p);
    forall x | x in Keep(s, p) ensures x in s && p(x) {
      assert multiset(Keep(s, p))[x] > 0;
    }
    forall x | x in s && p(x) ensures x in Keep(s, p) {
      assert multiset(s)[x] > 0;
    }
  }

  lemma {:induction false} KeepOrder<T>(s: seq<T>, p: T -> bool)
    ensures |Keep(s, p)| <= |s|
    ensures Subsequence(Keep(s, p), s)
  {
    if s != [] {
      KeepOrder(s[1..], p);
      var r := Keep(s, p);
      if p(s[0]) {
        assert r[0] == s[0] && r[1..] == Keep(s[1..], p);
      } else {
        assert r == Keep(s[1..], p);
      }
    }
  }

  lemma {:induction false} KeepCounts<T>(s: seq<T>, p: T -> bool)
    ensures forall x :: multiset(Keep(s, p))[x] == if p(x) then multiset(s)[x] else 0
  {
    if s != [] {
      KeepCounts(s[1..], p);
      assert s == [s[0]] + s[1..];
      assert multiset(s) == multiset([s[0]]) + multiset(s[1..]);
      assert multiset(Keep(s, p)) == multiset(if p(s[0]) then [s[0]] else []) + multiset(Keep(s[1..], p));
    }
  }

  /** `s` last element first. */
  function Reversed<T>(s: seq<T>): (r: seq<T>)
    ensures |r| == |s|
    ensures forall i :: 0 <= i < |s| ==> r[i] == s[|s| - 1 - i]
    decreases |s|
  {
    if s == [] then [] else [s[|s| - 1]] + Reversed(s[..|s| - 1])
  }

  /** Filtering with a predicate every element satisfies changes nothing. */
  lemma {:induction false} KeepAll<T>(s: seq<T>, p: T -> bool)
    requires forall x :: x in s ==> p(x)
    ensures Keep(s, p) == s
  {
    if s != [] {
      KeepAll(s[1..], p);
      assert [s[0]] + s[1..] == s;
    }
  }

  /** Filtering with a predicate no element satisfies leaves nothing. */
  lemma {:induction false} KeepNone<T>(s: seq<T>, p: T -> bool)
    requires forall x :: x in s ==> !p(x)
    ensures Keep(s, p) == []
  {
    if s != [] {
      KeepNone(s[1..], p);
    }
  }

  /** Two filters in a row are one filter with the conjunction. */
  lemma {:induction false} KeepKeep<T>(s: seq<T>, p: T -> bool, q: T -> bool, pq: T -> bool)
    requires forall x :: pq(x) == (p(x) && q(x))
    ensures Keep(Keep(s, p), q) == Keep(s, pq)
  {
    if s != [] {
      KeepKeep(s[1..], p, q, pq);
      var head := if p(s[0]) then [s[0]] else [];
      assert Keep(s, p) == head + Keep(s[1..], p);
      KeepConcat(head, Keep(s[1..], p), q);
      if p(s[0]) {
        assert Keep(head, q) == (if q(s[0]) then [s[0]] else []) + Keep([], q);
      }
    }
  }

  lemma {:induction false} KeepConcat<T>(a: seq<T>, b: seq<T>, p: T -> bool)
    ensures Keep(a + b, p) == Keep(a, p) + Keep(b, p)
  {
    if a != [] {
      KeepConcat(a[1..], b, p);
      assert (a + b)[0] == a[0];
      assert (a + b)[1..] == a[1..] + b;
    } else {
      assert a + b == b;
    }
  }

  /** Filtering twice with the same predicate is filtering once. */
  lemma KeepIdempotent<T>(s: seq<T>, p: T -> bool)
    ensures Keep(Keep(s, p), p) == Keep(s, p)
  {
    KeepSelects(s, p);
    forall x | x in Keep(s, p) ensures p(x) { KeepSelects(s, p); }
    KeepAll(Keep(s, p), p);
  }
}
