/**
 `canonical` and `deepEqual` of `tooling/agent-os/generate.ts`: JSON values are compared by
 printing them with their object keys sorted.

 An object is the sequence of its own members in enumeration order. A JavaScript engine enumerates
 integer-like keys first, in ascending order, whatever the insertion order; and assigning to the
 key `__proto__` sets the prototype instead of creating a member.
 */
module CanonicalJson {
  import opened StrictSort

  datatype Member = Member(key: string, value: Json)

  /** A finite number is represented by the decimal text that printing it yields. */
  datatype Json =
    | Null
    | Bool(b: bool)
    | Num(text: string)
    | Str(s: string)
    | Arr(items: seq<Json>)
    | Obj(members: seq<Member>)

  const PROTO: string := "__proto__"

  predicate NumChar(c: char) {
    '0' <= c <= '9' || c == '-' || c == '+' || c == '.' || c == 'e'
  }

  predicate NumText(t: string) {
    && t != [] && ('0' <= t[0] <= '9' || t[0] == '-')
    && forall i :: 0 <= i < |t| ==> NumChar(t[i])
  }

  predicate DistinctKeys(ms: seq<Member>) {
    forall i, j :: 0 <= i < j < |ms| ==> ms[i].key != ms[j].key
  }

  predicate WellFormed(v: Json) {
    match v
    case Num(t) => NumText(t)
    case Arr(items) => forall i :: 0 <= i < |items| ==> WellFormed(items[i])
    case Obj(ms) => DistinctKeys(ms) && forall i :: 0 <= i < |ms| ==> WellFormed(ms[i].value)
    case _ => true
  }

  // ----- Key order -----

  predicate LexLess(a: string, b: string) {
    b != [] && (a == [] || a[0] < b[0] || (a[0] == b[0] && LexLess(a[1..], b[1..])))
  }

  predicate Digits(k: string) {
    forall i :: 0 <= i < |k| ==> '0' <= k[i] <= '9'
  }

  /** An array index in the sense of the ECMAScript property order: a canonical numeral up to
      2^32 - 2. */
  predicate IsIndex(k: string) {
    && 0 < |k| <= 10 && Digits(k) && (k[0] == '0' ==> |k| == 1)
    && (|k| == 10 ==> !LexLess("4294967294", k))
  }

  /** Enumeration order of the keys of an object filled in sorted order. */
  predicate KeyLess(a: string, b: string) {
    if IsIndex(a) != IsIndex(b) then IsIndex(a)
    else if IsIndex(a) && |a| != |b| then |a| < |b|
    else LexLess(a, b)
  }

  lemma {:induction false} LexOrder(a: string, b: string, c: string)
    ensures !LexLess(a, a)
    ensures a == b || LexLess(a, b) || LexLess(b, a)
    ensures LexLess(a, b) && LexLess(b, c) ==> LexLess(a, c)
    decreases |a| + |b| + |c|
  {
    if a != [] && b != [] && c != [] {
      LexOrder(a[1..], b[1..], c[1..]);
      assert a == [a[0]] + a[1..] && b == [b[0]] + b[1..];
    } else if a != [] && b != [] {
      LexOrder(a[1..], b[1..], c);
      assert a == [a[0]] + a[1..] && b == [b[0]] + b[1..];
    } else if a != [] {
      LexOrder(a[1..], b, c);
    }
  }

  lemma KeyOrder(a: string, b: string, c: string)
    ensures !KeyLess(a, a)
    ensures a == b || KeyLess(a, b) || KeyLess(b, a)
    ensures KeyLess(a, b) && KeyLess(b, c) ==> KeyLess(a, c)
  {
    LexOrder(a, b, c);
  }

  // ----- Indices are compared as numbers -----

  /** The number that the digits `k` denote after a leading `high`. */
  function Numeral(k: string, high: nat): nat
    requires Digits(k)
  {
    if k == [] then high else Numeral(k[1..], high * 10 + (k[0] - '0') as nat)
  }

  lemma {:induction false} NumeralMonotone(a: string, b: string, x: nat, y: nat)
    requires Digits(a) && Digits(b) && |a| <= |b| && x < y
    ensures Numeral(a, x) < Numeral(b, y)
    decreases |b|
  {
    if |a| < |b| {
      NumeralMonotone(a, b[1..], x, y * 10 + (b[0] - '0') as nat);
    } else if a != [] {
      NumeralMonotone(a[1..], b[1..], x * 10 + (a[0] - '0') as nat, y * 10 + (b[0] - '0') as nat);
    }
  }

  lemma {:induction false} LexIsNumeric(a: string, b: string, x: nat)
    requires Digits(a) && Digits(b) && |a| == |b|
    ensures LexLess(a, b) <==> Numeral(a, x) < Numeral(b, x)
  {
    if a != [] {
      var m, n := x * 10 + (a[0] - '0') as nat, x * 10 + (b[0] - '0') as nat;
      if a[0] == b[0] { LexIsNumeric(a[1..], b[1..], m); }
      else if a[0] < b[0] { NumeralMonotone(a[1..], b[1..], m, n); }
      else { NumeralMonotone(b[1..], a[1..], n, m); }
    }
  }

  lemma ShorterIsLess(a: string, b: string)
    requires Digits(a) && Digits(b) && |a| < |b| && b[0] != '0'
    ensures Numeral(a, 0) < Numeral(b, 0)
  {
    NumeralMonotone(a, b[1..], 0, (b[0] - '0') as nat);
  }

  lemma Lead(c: char, rest: string, high: nat) returns (k: string)
    requires '0' <= c <= '9' && Digits(rest)
    ensures k == [c] + rest && Digits(k) && Numeral(k, high) == Numeral(rest, high * 10 + (c - '0') as nat)
  {
    k := [c] + rest;
    assert k[1..] == rest;
  }

  lemma LowDigits() returns (k: string)
    ensures k == "67294" && Digits(k) && Numeral(k, 42949) == 4294967294
  {
    k := Lead('4', [], 429496729);
    k := Lead('9', k, 42949672);
    k := Lead('2', k, 4294967);
    k := Lead('7', k, 429496);
    k := Lead('6', k, 42949);
  }

  lemma MiddleDigits() returns (k: string)
    ensures k == "4967294" && Digits(k) && Numeral(k, 429) == 4294967294
  {
    k := LowDigits();
    k := Lead('9', k, 4294);
    k := Lead('4', k, 429);
  }

  lemma LargestIndex() returns (k: string)
    ensures k == "4294967294" && Digits(k) && Numeral(k, 0) == 4294967294
  {
    k := MiddleDigits();
    k := Lead('9', k, 42);
    k := Lead('2', k, 4);
    k := Lead('4', k, 0);
  }

  /** The integer-like keys are exactly the numerals without leading zeros up to 2^32 - 2. */
  lemma IndexExactly(k: string)
    ensures IsIndex(k) <==>
            k != [] && Digits(k) && (k[0] == '0' ==> |k| == 1) && Numeral(k, 0) <= 4294967294
  {
    var largest := LargestIndex();
    if k != [] && Digits(k) && (k[0] == '0' ==> |k| == 1) {
      if |k| < 10 { ShorterIsLess(k, largest); }
      else if |k| == 10 { LexIsNumeric(largest, k, 0); }
      else { ShorterIsLess(largest, k); }
    }
  }

  /** Enumeration lists integer-like keys first, in numeric order, and the others by code unit. */
  lemma EnumerationOrder(a: string, b: string)
    ensures IsIndex(a) && !IsIndex(b) ==> KeyLess(a, b) && !KeyLess(b, a)
    ensures IsIndex(a) && IsIndex(b) ==> (KeyLess(a, b) <==> Numeral(a, 0) < Numeral(b, 0))
    ensures !IsIndex(a) && !IsIndex(b) ==> (KeyLess(a, b) <==> LexLess(a, b))
  {
    if IsIndex(a) && IsIndex(b) {
      if |a| == |b| { LexIsNumeric(a, b, 0); }
      else if |a| < |b| { ShorterIsLess(a, b); }
      else { ShorterIsLess(b, a); }
    }
  }

  predicate MemberLess(a: Member, b: Member) {
    KeyLess(a.key, b.key)
  }

  lemma MemberOrder()
    ensures StrictOrder(MemberLess)
  {
    forall x: Member ensures !MemberLess(x, x) { KeyOrder(x.key, x.key, x.key); }
    forall x: Member, y: Member, z: Member | MemberLess(x, y) && MemberLess(y, z) ensures MemberLess(x, z) {
      KeyOrder(x.key, y.key, z.key);
    }
  }

  // ----- canonical -----

  function Canonical(v: Json): Json
    decreases v, 1
  {
    match v
    case Arr(items) => Arr(CanonicalItems(items))
    case Obj(ms) => Obj(CanonicalMembers(ms))
    case _ => v
  }

  function CanonicalItems(items: seq<Json>): seq<Json>
    decreases items, 0
  {
    if items == [] then [] else [Canonical(items[0])] + CanonicalItems(items[1..])
  }

  function CanonicalMembers(ms: seq<Member>): seq<Member>
    decreases ms, 0
  {
    if ms == [] then []
    else if ms[0].key == PROTO then CanonicalMembers(ms[1..])
    else Insert(MemberLess, CanonicalMembers(ms[1..]), Member(ms[0].key, Canonical(ms[0].value)))
  }

  /** `c` is the canonical counterpart of a member of `ms` that canonicalization keeps. */
  ghost predicate Kept(ms: seq<Member>, c: Member) {
    exists m :: m in ms && m.key != PROTO && c == Member(m.key, Canonical(m.value))
  }

  lemma {:induction false} CanonicalMembersKept(ms: seq<Member>, c: Member)
    ensures c in CanonicalMembers(ms) <==> Kept(ms, c)
    decreases |ms|
  {
    if ms != [] {
      assert forall m :: m in ms <==> m == ms[0] || m in ms[1..];
      CanonicalMembersKept(ms[1..], c);
      InsertMembers(MemberLess, CanonicalMembers(ms[1..]), Member(ms[0].key, Canonical(ms[0].value)));
    }
  }

  lemma {:induction false} CanonicalMembersSorted(ms: seq<Member>)
    requires DistinctKeys(ms)
    ensures Sorted(MemberLess, CanonicalMembers(ms))
    decreases |ms|
  {
    if ms != [] {
      var rest := CanonicalMembers(ms[1..]);
      CanonicalMembersSorted(ms[1..]);
      var c := Member(ms[0].key, Canonical(ms[0].value));
      forall i | 0 <= i < |rest| ensures MemberLess(c, rest[i]) || MemberLess(rest[i], c) {
        CanonicalMembersKept(ms[1..], rest[i]);
        KeyOrder(c.key, rest[i].key, c.key);
      }
      MemberOrder();
      InsertSorts(MemberLess, rest, c);
    }
  }

  /** The loop of `canonical`. `sort` orders the keys by code unit; assigning an integer-like key
      puts it among the leading integer-like keys, any other key goes last. */
  predicate LexMemberLess(a: Member, b: Member) {
    LexLess(a.key, b.key)
  }

  function LexSort(ms: seq<Member>): seq<Member> {
    if ms == [] then [] else Insert(LexMemberLess, LexSort(ms[1..]), ms[0])
  }

  lemma {:induction false} LexSortMembers(ms: seq<Member>)
    ensures forall m :: m in LexSort(ms) <==> m in ms
  {
    if ms != [] {
      LexSortMembers(ms[1..]);
      InsertMembers(LexMemberLess, LexSort(ms[1..]), ms[0]);
    }
  }

  lemma {:induction false} LexSortSorted(ms: seq<Member>)
    requires DistinctKeys(ms)
    ensures Sorted(LexMemberLess, LexSort(ms))
  {
    if ms != [] {
      LexSortSorted(ms[1..]);
      LexSortMembers(ms[1..]);
      var rest := LexSort(ms[1..]);
      forall i | 0 <= i < |rest| ensures LexMemberLess(ms[0], rest[i]) || LexMemberLess(rest[i], ms[0]) {
        assert rest[i] in rest;
        LexOrder(ms[0].key, rest[i].key, rest[i].key);
      }
      LexMemberOrder();
      InsertSorts(LexMemberLess, rest, ms[0]);
    }
  }

  lemma LexMemberOrder()
    ensures StrictOrder(LexMemberLess)
  {
    forall x: Member ensures !LexMemberLess(x, x) { LexOrder(x.key, x.key, x.key); }
    forall x: Member, y: Member, z: Member | LexMemberLess(x, y) && LexMemberLess(y, z) ensures LexMemberLess(x, z) {
      LexOrder(x.key, y.key, z.key);
    }
  }

  /** `target[key] = value` on an object without that key. */
  function AssignOwn(target: seq<Member>, m: Member): seq<Member> {
    if m.key == PROTO then target
    else if IsIndex(m.key) then Insert(MemberLess, target, m)
    else target + [m]
  }

  lemma AssignOwnSorts(target: seq<Member>, m: Member)
    requires Sorted(MemberLess, target)
    requires forall i :: 0 <= i < |target| ==> LexLess(target[i].key, m.key)
    ensures Sorted(MemberLess, AssignOwn(target, m))
    ensures forall x :: x in AssignOwn(target, m) <==> x in target || (m.key != PROTO && x == m)
  {
    if IsIndex(m.key) {
      forall i | 0 <= i < |target| ensures MemberLess(m, target[i]) || MemberLess(target[i], m) {
        LexOrder(m.key, target[i].key, m.key);
        KeyOrder(m.key, target[i].key, m.key);
      }
      MemberOrder();
      InsertSorts(MemberLess, target, m);
      InsertMembers(MemberLess, target, m);
    }
  }

  method CanonicalValue(v: Json) returns (r: Json)
    requires WellFormed(v)
    ensures r == Canonical(v)
    decreases v, 1
  {
    match v
    case Arr(items) =>
      var out := CanonicalArray(items);
      r := Arr(out);
    case Obj(ms) =>
      var out := CanonicalObject(ms);
      r := Obj(out);
    case _ => r := v;
  }

  method CanonicalArray(items: seq<Json>) returns (out: seq<Json>)
    requires forall i :: 0 <= i < |items| ==> WellFormed(items[i])
    ensures out == CanonicalItems(items)
    decreases items, 0
  {
    out := [];
    for i := 0 to |items|
      invariant CanonicalItems(items) == out + CanonicalItems(items[i..])
    {
      var c := CanonicalValue(items[i]);
      assert items[i..][1..] == items[i + 1..];
      out := out + [c];
    }
  }

  method CanonicalObject(ms: seq<Member>) returns (out: seq<Member>)
    requires DistinctKeys(ms) && forall i :: 0 <= i < |ms| ==> WellFormed(ms[i].value)
    ensures out == CanonicalMembers(ms)
    decreases ms, 0
  {
    var sorted := LexSort(ms);
    LexSortMembers(ms);
    LexSortSorted(ms);
    out := [];
    for i := 0 to |sorted|
      invariant Sorted(MemberLess, out)
      invariant forall x :: x in out <==> Kept(sorted[..i], x)
    {
      assert sorted[i] in sorted;
      var at :| 0 <= at < |ms| && ms[at] == sorted[i];
      var value := CanonicalValue(ms[at].value);
      FilledSoFar(sorted, i, out);
      AssignOwnSorts(out, Member(sorted[i].key, value));
      KeptNext(sorted, i);
      out := AssignOwn(out, Member(sorted[i].key, value));
    }
    FillingIsCanonical(ms, sorted, out);
  }

  /** The keys assigned so far sort before the next one. */
  lemma FilledSoFar(sorted: seq<Member>, i: nat, out: seq<Member>)
    requires i < |sorted| && Sorted(LexMemberLess, sorted) && forall x :: x in out ==> Kept(sorted[..i], x)
    ensures forall j :: 0 <= j < |out| ==> LexLess(out[j].key, sorted[i].key)
  {
    forall j | 0 <= j < |out| ensures LexLess(out[j].key, sorted[i].key) {
      assert out[j] in out;
      var m :| m in sorted[..i] && m.key == out[j].key;
      var k :| 0 <= k < i && sorted[k] == m;
      assert LexMemberLess(sorted[k], sorted[i]);
    }
  }

  lemma KeptNext(sorted: seq<Member>, i: nat)
    requires i < |sorted|
    ensures forall x :: Kept(sorted[..i + 1], x) <==>
      Kept(sorted[..i], x) || (sorted[i].key != PROTO && x == Member(sorted[i].key, Canonical(sorted[i].value)))
  {
    assert sorted[..i + 1] == sorted[..i] + [sorted[i]];
  }

  lemma FillingIsCanonical(ms: seq<Member>, sorted: seq<Member>, out: seq<Member>)
    requires DistinctKeys(ms) && (forall m :: m in sorted <==> m in ms) && Sorted(MemberLess, out)
    requires forall x :: x in out <==> Kept(sorted[..|sorted|], x)
    ensures out == CanonicalMembers(ms)
  {
    assert sorted[..|sorted|] == sorted;
    forall x ensures x in out <==> x in CanonicalMembers(ms) {
      CanonicalMembersKept(ms, x);
    }
    CanonicalMembersSorted(ms);
    MemberOrder();
    SortedUnique(MemberLess, out, CanonicalMembers(ms));
  }
}
