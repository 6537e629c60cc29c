/**
 What `deepEqual` decides: equality of JSON values up to the order of object members, proved by
 way of the printed canonical form.
 */
module JsonEquality {
  import opened Prelude
  import opened StrictSort
  import opened CanonicalJson
  import opened JsonText

  // ----- The reference: objects as unordered name/value collections -----

  datatype Value =
    | VNull
    | VBool(b: bool)
    | VNum(text: string)
    | VStr(s: string)
    | VArr(items: seq<Value>)
    | VObj(members: map<string, Value>)

  function Meaning(v: Json): Value
    decreases v, 1
  {
    match v
    case Null => VNull
    case Bool(b) => VBool(b)
    case Num(t) => VNum(t)
    case Str(s) => VStr(s)
    case Arr(items) => VArr(ItemMeanings(items))
    case Obj(ms) => VObj(MemberMeanings(ms))
  }

  function ItemMeanings(items: seq<Json>): seq<Value>
    decreases items, 0
  {
    if items == [] then [] else [Meaning(items[0])] + ItemMeanings(items[1..])
  }

  function MemberMeanings(ms: seq<Member>): map<string, Value>
    decreases ms, 0
  {
    if ms == [] then map[] else MemberMeanings(ms[1..])[ms[0].key := Meaning(ms[0].value)]
  }

  /** `v` without the members the code drops: those named `__proto__`, at every depth. */
  function Strip(v: Json): Json
    decreases v, 1
  {
    match v
    case Arr(items) => Arr(StripItems(items))
    case Obj(ms) => Obj(StripMembers(ms))
    case _ => v
  }

  function StripItems(items: seq<Json>): seq<Json>
    decreases items, 0
  {
    if items == [] then [] else [Strip(items[0])] + StripItems(items[1..])
  }

  function StripMembers(ms: seq<Member>): seq<Member>
    decreases ms, 0
  {
    if ms == [] then []
    else (if ms[0].key == PROTO then [] else [Member(ms[0].key, Strip(ms[0].value))]) + StripMembers(ms[1..])
  }

  predicate NoProto(v: Json) {
    match v
    case Arr(items) => forall i :: 0 <= i < |items| ==> NoProto(items[i])
    case Obj(ms) => forall i :: 0 <= i < |ms| ==> ms[i].key != PROTO && NoProto(ms[i].value)
    case _ => true
  }

  // ----- Pointwise views -----

  lemma {:induction false} ItemsAt(items: seq<Json>)
    ensures |ItemMeanings(items)| == |StripItems(items)| == |CanonicalItems(items)| == |items|
    ensures forall i :: 0 <= i < |items| ==>
      && ItemMeanings(items)[i] == Meaning(items[i])
      && StripItems(items)[i] == Strip(items[i])
      && CanonicalItems(items)[i] == Canonical(items[i])
  {
    if items != [] { ItemsAt(items[1..]); }
  }

  lemma {:induction false} MemberMeaningAt(ms: seq<Member>, m: Member)
    requires DistinctKeys(ms) && m in ms
    ensures m.key in MemberMeanings(ms) && MemberMeanings(ms)[m.key] == Meaning(m.value)
    decreases |ms|
  {
    if m != ms[0] {
      assert m in ms[1..];
      MemberMeaningAt(ms[1..], m);
    }
  }

  lemma {:induction false} MemberMeaningFrom(ms: seq<Member>, k: string) returns (i: nat)
    requires k in MemberMeanings(ms)
    ensures i < |ms| && ms[i].key == k && MemberMeanings(ms)[k] == Meaning(ms[i].value)
  {
    if ms[0].key == k {
      i := 0;
    } else {
      var j := MemberMeaningFrom(ms[1..], k);
      i := j + 1;
    }
  }

  lemma {:induction false} StripMembersFrom(ms: seq<Member>, s: Member)
    ensures s in StripMembers(ms) <==> exists m :: m in ms && m.key != PROTO && s == Member(m.key, Strip(m.value))
    decreases |ms|
  {
    if ms != [] {
      assert forall m :: m in ms <==> m == ms[0] || m in ms[1..];
      StripMembersFrom(ms[1..], s);
    }
  }

  lemma {:induction false} StripKeepsDistinct(ms: seq<Member>)
    requires DistinctKeys(ms)
    ensures DistinctKeys(StripMembers(ms))
    decreases |ms|
  {
    if ms != [] {
      StripKeepsDistinct(ms[1..]);
      var rest := StripMembers(ms[1..]);
      forall i | 0 <= i < |rest| ensures rest[i].key != ms[0].key {
        StripMembersFrom(ms[1..], rest[i]);
        assert rest[i] in rest;
      }
    }
  }

  lemma SortedDistinct(ms: seq<Member>)
    requires Sorted(MemberLess, ms)
    ensures DistinctKeys(ms)
  {
    forall i, j | 0 <= i < j < |ms| ensures ms[i].key != ms[j].key {
      KeyOrder(ms[i].key, ms[i].key, ms[i].key);
      assert MemberLess(ms[i], ms[j]);
    }
  }

  // ----- Canonicalization keeps the meaning of what it keeps -----

  /** Two member lists whose members correspond, with equal meanings, denote the same map. */
  lemma SameMap(xs: seq<Member>, ys: seq<Member>)
    requires DistinctKeys(xs) && DistinctKeys(ys)
    requires forall x :: x in xs ==> exists y :: y in ys && y.key == x.key && Meaning(y.value) == Meaning(x.value)
    requires forall y :: y in ys ==> exists x :: x in xs && x.key == y.key
    ensures MemberMeanings(xs) == MemberMeanings(ys)
  {
    forall k ensures k in MemberMeanings(xs) <==> k in MemberMeanings(ys) {
      if k in MemberMeanings(xs) {
        var i := MemberMeaningFrom(xs, k);
        assert xs[i] in xs;
        var y :| y in ys && y.key == k;
        MemberMeaningAt(ys, y);
      }
      if k in MemberMeanings(ys) {
        var i := MemberMeaningFrom(ys, k);
        assert ys[i] in ys;
        var x :| x in xs && x.key == k;
        MemberMeaningAt(xs, x);
      }
    }
    forall k | k in MemberMeanings(xs) ensures MemberMeanings(xs)[k] == MemberMeanings(ys)[k] {
      var i := MemberMeaningFrom(xs, k);
      assert xs[i] in xs;
      var y :| y in ys && y.key == k && Meaning(y.value) == Meaning(xs[i].value);
      MemberMeaningAt(ys, y);
    }
  }

  lemma {:induction false} CanonicalMeaning(v: Json)
    requires WellFormed(v)
    ensures Meaning(Canonical(v)) == Meaning(Strip(v))
  {
    match v
    case Arr(items) =>
      ItemsAt(items);
      ItemsAt(CanonicalItems(items));
      ItemsAt(StripItems(items));
      forall i | 0 <= i < |items| ensures ItemMeanings(CanonicalItems(items))[i] == ItemMeanings(StripItems(items))[i] {
        CanonicalMeaning(items[i]);
      }
      assert ItemMeanings(CanonicalItems(items)) == ItemMeanings(StripItems(items));
    case Obj(ms) =>
      var xs, ys := CanonicalMembers(ms), StripMembers(ms);
      CanonicalMembersSorted(ms);
      SortedDistinct(xs);
      StripKeepsDistinct(ms);
      forall x | x in xs
        ensures exists y :: y in ys && y.key == x.key && Meaning(y.value) == Meaning(x.value)
      {
        CanonicalMembersKept(ms, x);
        var i :| 0 <= i < |ms| && ms[i].key != PROTO && x == Member(ms[i].key, Canonical(ms[i].value));
        CanonicalMeaning(ms[i].value);
        StripMembersFrom(ms, Member(ms[i].key, Strip(ms[i].value)));
      }
      forall y | y in ys ensures exists x :: x in xs && x.key == y.key {
        StripMembersFrom(ms, y);
        var m :| m in ms && m.key != PROTO && y == Member(m.key, Strip(m.value));
        CanonicalMembersKept(ms, Member(m.key, Canonical(m.value)));
      }
      SameMap(xs, ys);
    case _ =>
  }

  // ----- Canonical forms are unique -----

  /** Sorted members at every depth. */
  predicate IsCanonical(v: Json) {
    match v
    case Arr(items) => forall i :: 0 <= i < |items| ==> IsCanonical(items[i])
    case Obj(ms) => Sorted(MemberLess, ms) && forall i :: 0 <= i < |ms| ==> IsCanonical(ms[i].value)
    case _ => true
  }

  lemma {:induction false} CanonicalIsCanonical(v: Json)
    requires WellFormed(v)
    ensures IsCanonical(Canonical(v)) && WellFormed(Canonical(v))
  {
    match v
    case Arr(items) =>
      ItemsAt(items);
      forall i | 0 <= i < |items| ensures IsCanonical(Canonical(items[i])) && WellFormed(Canonical(items[i])) {
        CanonicalIsCanonical(items[i]);
      }
    case Obj(ms) =>
      var xs := CanonicalMembers(ms);
      CanonicalMembersSorted(ms);
      SortedDistinct(xs);
      forall j | 0 <= j < |xs| ensures IsCanonical(xs[j].value) && WellFormed(xs[j].value) {
        CanonicalMembersKept(ms, xs[j]);
        var i :| 0 <= i < |ms| && ms[i].key != PROTO && xs[j] == Member(ms[i].key, Canonical(ms[i].value));
        CanonicalIsCanonical(ms[i].value);
      }
    case _ =>
  }

  lemma {:induction false} CanonicalUnique(a: Json, b: Json)
    requires IsCanonical(a) && IsCanonical(b) && Meaning(a) == Meaning(b)
    ensures a == b
    decreases a
  {
    match a
    case Arr(items) =>
      ItemsAt(items);
      ItemsAt(b.items);
      forall i | 0 <= i < |items| ensures items[i] == b.items[i] {
        assert ItemMeanings(items)[i] == ItemMeanings(b.items)[i];
        CanonicalUnique(items[i], b.items[i]);
      }
    case Obj(ms) =>
      SortedDistinct(ms);
      SortedDistinct(b.members);
      forall i | 0 <= i < |ms| ensures ms[i] in b.members {
        MemberMeaningAt(ms, ms[i]);
        var j := MemberMeaningFrom(b.members, ms[i].key);
        CanonicalUnique(ms[i].value, b.members[j].value);
        assert b.members[j] in b.members;
      }
      forall j | 0 <= j < |b.members| ensures b.members[j] in ms {
        MemberMeaningAt(b.members, b.members[j]);
        var i := MemberMeaningFrom(ms, b.members[j].key);
        CanonicalUnique(ms[i].value, b.members[j].value);
      }
      MemberOrder();
      SortedUnique(MemberLess, ms, b.members);
    case _ =>
  }

  /** Two values have the same canonical form exactly when, without the dropped members, they are
      equal up to member order. */
  lemma CanonicalExactly(a: Json, b: Json)
    requires WellFormed(a) && WellFormed(b)
    ensures Canonical(a) == Canonical(b) <==> Meaning(Strip(a)) == Meaning(Strip(b))
  {
    CanonicalMeaning(a);
    CanonicalMeaning(b);
    CanonicalIsCanonical(a);
    CanonicalIsCanonical(b);
    if Meaning(Strip(a)) == Meaning(Strip(b)) { CanonicalUnique(Canonical(a), Canonical(b)); }
  }

  /** Canonicalizing twice changes nothing more. */
  lemma CanonicalIdempotent(v: Json)
    requires WellFormed(v)
    ensures Canonical(Canonical(v)) == Canonical(v)
  {
    CanonicalIsCanonical(v);
    CanonicalKeepsNoProto(v);
    StripIsIdentity(Canonical(v));
    CanonicalMeaning(v);
    CanonicalExactly(Canonical(v), v);
  }

  lemma {:induction false} CanonicalKeepsNoProto(v: Json)
    requires WellFormed(v)
    ensures NoProto(Canonical(v)) && NoProto(Strip(v))
  {
    match v
    case Arr(items) =>
      ItemsAt(items);
      forall i | 0 <= i < |items| ensures NoProto(Canonical(items[i])) && NoProto(Strip(items[i])) {
        CanonicalKeepsNoProto(items[i]);
      }
    case Obj(ms) =>
      var xs, ys := CanonicalMembers(ms), StripMembers(ms);
      forall j | 0 <= j < |xs| ensures xs[j].key != PROTO && NoProto(xs[j].value) {
        CanonicalMembersKept(ms, xs[j]);
        var i :| 0 <= i < |ms| && ms[i].key != PROTO && xs[j] == Member(ms[i].key, Canonical(ms[i].value));
        CanonicalKeepsNoProto(ms[i].value);
      }
      forall j | 0 <= j < |ys| ensures ys[j].key != PROTO && NoProto(ys[j].value) {
        StripMembersFrom(ms, ys[j]);
        var i :| 0 <= i < |ms| && ms[i].key != PROTO && ys[j] == Member(ms[i].key, Strip(ms[i].value));
        CanonicalKeepsNoProto(ms[i].value);
      }
    case _ =>
  }

  lemma {:induction false} StripIsIdentity(v: Json)
    requires NoProto(v)
    ensures Strip(v) == v
  {
    match v
    case Arr(items) =>
      ItemsAt(items);
      forall i | 0 <= i < |items| ensures Strip(items[i]) == items[i] { StripIsIdentity(items[i]); }
    case Obj(ms) =>
      forall i | 0 <= i < |ms| ensures Strip(ms[i].value) == ms[i].value { StripIsIdentity(ms[i].value); }
      StripMembersIsIdentity(ms);
    case _ =>
  }

  lemma {:induction false} StripMembersIsIdentity(ms: seq<Member>)
    requires forall i :: 0 <= i < |ms| ==> ms[i].key != PROTO && Strip(ms[i].value) == ms[i].value
    ensures StripMembers(ms) == ms
  {
    if ms != [] {
      StripMembersIsIdentity(ms[1..]);
      assert ms == [ms[0]] + ms[1..];
    }
  }

  lemma {:induction false} StripWellFormed(v: Json)
    requires WellFormed(v)
    ensures WellFormed(Strip(v))
  {
    match v
    case Arr(items) =>
      ItemsAt(items);
      forall i | 0 <= i < |items| ensures WellFormed(Strip(items[i])) { StripWellFormed(items[i]); }
    case Obj(ms) =>
      StripKeepsDistinct(ms);
      var ys := StripMembers(ms);
      forall j | 0 <= j < |ys| ensures WellFormed(ys[j].value) {
        StripMembersFrom(ms, ys[j]);
        var i :| 0 <= i < |ms| && ms[i].key != PROTO && ys[j] == Member(ms[i].key, Strip(ms[i].value));
        StripWellFormed(ms[i].value);
      }
    case _ =>
  }

  /** Whether a dropped member occurs is visible in the meaning. */
  lemma {:induction false} NoProtoFromMeaning(a: Json, b: Json)
    requires WellFormed(a) && WellFormed(b) && Meaning(a) == Meaning(b) && NoProto(b)
    ensures NoProto(a)
    decreases a
  {
    match a
    case Arr(items) =>
      ItemsAt(items);
      ItemsAt(b.items);
      forall i | 0 <= i < |items| ensures NoProto(items[i]) {
        assert ItemMeanings(items)[i] == ItemMeanings(b.items)[i];
        NoProtoFromMeaning(items[i], b.items[i]);
      }
    case Obj(ms) =>
      forall i | 0 <= i < |ms| ensures ms[i].key != PROTO && NoProto(ms[i].value) {
        MemberMeaningAt(ms, ms[i]);
        var j := MemberMeaningFrom(b.members, ms[i].key);
        NoProtoFromMeaning(ms[i].value, b.members[j].value);
      }
    case _ =>
  }

  // ----- deepEqual -----

  /** `undefined` prints as `undefined`, unlike every JSON value. */
  function Stringify(v: Option<Json>): Option<string> {
    if v.None? then None else Some(Print(Canonical(v.value)))
  }

  predicate DeepEqual(left: Option<Json>, right: Option<Json>) {
    Stringify(left) == Stringify(right)
  }

  predicate SameUpToOrder(left: Option<Json>, right: Option<Json>) {
    left.Some? == right.Some? && (left.Some? ==> Meaning(left.value) == Meaning(right.value))
  }

  function StripOption(v: Option<Json>): Option<Json> {
    if v.None? then None else Some(Strip(v.value))
  }

  predicate WellFormedOption(v: Option<Json>) {
    v.Some? ==> WellFormed(v.value)
  }

  predicate NoProtoOption(v: Option<Json>) {
    v.Some? ==> NoProto(v.value)
  }

  /** What `deepEqual` decides, for all inputs. */
  lemma DeepEqualDecides(left: Option<Json>, right: Option<Json>)
    requires WellFormedOption(left) && WellFormedOption(right)
    ensures DeepEqual(left, right) <==> SameUpToOrder(StripOption(left), StripOption(right))
  {
    if left.Some? && right.Some? {
      CanonicalIsCanonical(left.value);
      CanonicalIsCanonical(right.value);
      PrintInjective(Canonical(left.value), Canonical(right.value));
      CanonicalExactly(left.value, right.value);
    }
  }

  /** Against every value without a `__proto__` member, `deepEqual` is equality up to member order
      exactly when its other argument has no such member either. */
  lemma DeepEqualIsEqualityExactlyWhen(left: Option<Json>)
    requires WellFormedOption(left)
    ensures (forall right :: WellFormedOption(right) && NoProtoOption(right) ==>
               (DeepEqual(left, right) <==> SameUpToOrder(left, right)))
            <==> NoProtoOption(left)
  {
    if NoProtoOption(left) {
      forall right | WellFormedOption(right) && NoProtoOption(right)
        ensures DeepEqual(left, right) <==> SameUpToOrder(left, right)
      {
        DeepEqualDecides(left, right);
        if left.Some? { StripIsIdentity(left.value); }
        if right.Some? { StripIsIdentity(right.value); }
      }
    } else {
      var right := StripOption(left);
      StripWellFormed(left.value);
      CanonicalKeepsNoProto(left.value);
      StripIsIdentity(right.value);
      DeepEqualDecides(left, right);
      if SameUpToOrder(left, right) { NoProtoFromMeaning(left.value, right.value); }
    }
  }

  /** A dropped member: these differ, and `deepEqual` calls them equal. */
  lemma ProtoMemberIsIgnored()
    ensures var left := Some(Obj([Member(PROTO, Null)]));
            DeepEqual(left, Some(Obj([]))) && !SameUpToOrder(left, Some(Obj([])))
  {
    var ms := [Member(PROTO, Null)];
    assert CanonicalMembers(ms) == CanonicalMembers(ms[1..]) == CanonicalMembers([]) == [];
    assert Canonical(Obj(ms)) == Canonical(Obj([]));
    assert PROTO in MemberMeanings(ms);
  }
}
