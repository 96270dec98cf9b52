/**
 JSON values, when two of them are the same value, and the one form that stands for all the
 values that are the same: numbers without their signedness, members in the order of their keys'
 bytes.
 */
module JsonValue {
  import opened Optional
  import opened Utf8

  datatype Json =
    | Null
    | Bool(truth: bool)
    | Unsigned(magnitude: nat)
    | Integer(number: int)
    | Str(bytes: seq<Byte>)
    | Arr(items: seq<Json>)
    | Obj(members: seq<Member>)
    | Unsupported   // floating point, binary, discarded

  datatype Member = Member(key: seq<Byte>, value: Json)

  /** The order of unsigned bytes. */
  predicate Less(a: seq<Byte>, b: seq<Byte>) {
    b != [] && (a == [] || a[0] < b[0] || (a[0] == b[0] && Less(a[1..], b[1..])))
  }

  /** `a` comes before `b`: it ends where `b` goes on, or has the smaller byte at the first difference. */
  ghost predicate Precedes(a: seq<Byte>, b: seq<Byte>) {
    (|a| < |b| && a == b[..|a|]) || exists k :: SmallerAt(a, b, k)
  }

  predicate SmallerAt(a: seq<Byte>, b: seq<Byte>, k: int) {
    0 <= k < |a| && k < |b| && a[..k] == b[..k] && a[k] < b[k]
  }

  lemma {:induction false} LessIff(a: seq<Byte>, b: seq<Byte>)
    ensures Less(a, b) <==> Precedes(a, b)
  {
    if a != [] && b != [] {
      if a[0] == b[0] {
        LessIff(a[1..], b[1..]);
        PrecedesStep(a, b);
      } else {
        assert a[..0] == b[..0];
        assert SmallerAt(a, b, 0) <==> a[0] < b[0];
        forall k | SmallerAt(a, b, k) ensures k == 0 {
          SmallerBehind(a, b, k);
        }
      }
    }
  }

  lemma SmallerBehind(a: seq<Byte>, b: seq<Byte>, k: int)
    requires SmallerAt(a, b, k)
    ensures k == 0 || a[0] == b[0]
  {
    if k > 0 {
      assert a[..k][0] == a[0] && b[..k][0] == b[0];
    }
  }

  lemma PrecedesStep(a: seq<Byte>, b: seq<Byte>)
    requires a != [] && b != [] && a[0] == b[0]
    ensures Precedes(a, b) <==> Precedes(a[1..], b[1..])
  {
    var x, y := a[1..], b[1..];
    assert a == [a[0]] + x && b == [b[0]] + y;
    forall k ensures SmallerAt(a, b, k + 1) <==> SmallerAt(x, y, k) {
      if 0 <= k < |x| && k < |y| {
        assert a[..k + 1] == [a[0]] + x[..k] && b[..k + 1] == [b[0]] + y[..k];
        assert x[..k] == a[..k + 1][1..] && y[..k] == b[..k + 1][1..];
      }
      assert !SmallerAt(a, b, 0);
    }
    if k :| SmallerAt(a, b, k) {
      assert k != 0 && SmallerAt(x, y, k - 1);
    }
    if k :| SmallerAt(x, y, k) {
      assert SmallerAt(a, b, k + 1);
    }
    if |a| < |b| {
      assert b[..|a|] == [b[0]] + y[..|x|] && y[..|x|] == b[..|a|][1..];
    }
  }

  lemma {:induction false} LessIsTotal(a: seq<Byte>, b: seq<Byte>)
    ensures Less(a, b) || a == b || Less(b, a)
    ensures !(Less(a, b) && Less(b, a)) && !Less(a, a)
  {
    if a != [] {
      LessIsTotal(a[1..], if b == [] then [] else b[1..]);
      assert a == [a[0]] + a[1..];
    }
    if b != [] {
      assert b == [b[0]] + b[1..];
    }
  }

  lemma {:induction false} LessIsTransitive(a: seq<Byte>, b: seq<Byte>, c: seq<Byte>)
    requires Less(a, b) && Less(b, c)
    ensures Less(a, c)
  {
    if a != [] && a[0] == b[0] == c[0] {
      LessIsTransitive(a[1..], b[1..], c[1..]);
    }
  }

  predicate DistinctKeys(ms: seq<Member>) {
    forall i, j :: 0 <= i < j < |ms| ==> ms[i].key != ms[j].key
  }

  predicate Sorted(ms: seq<Member>) {
    forall i, j :: 0 <= i < j < |ms| ==> Less(ms[i].key, ms[j].key)
  }

  function Insert(m: Member, ms: seq<Member>): (r: seq<Member>)
    ensures |r| == |ms| + 1
    ensures forall x :: x in r <==> x == m || x in ms
  {
    if ms == [] then [m]
    else if Less(m.key, ms[0].key) then [m] + ms
    else
      assert ms == [ms[0]] + ms[1..];
      [ms[0]] + Insert(m, ms[1..])
  }

  /** The members in the order of their keys. */
  function Sort(ms: seq<Member>): (r: seq<Member>)
    ensures |r| == |ms|
    ensures forall x :: x in r <==> x in ms
  {
    if ms == [] then []
    else
      assert ms == [ms[0]] + ms[1..];
      Insert(ms[0], Sort(ms[1..]))
  }

  lemma {:induction false} InsertSorts(m: Member, ms: seq<Member>)
    requires Sorted(ms) && forall x :: x in ms ==> x.key != m.key
    ensures Sorted(Insert(m, ms))
  {
    if ms != [] {
      LessIsTotal(m.key, ms[0].key);
      if Less(m.key, ms[0].key) {
        forall j | 0 <= j < |ms| ensures Less(m.key, ms[j].key) {
          if j > 0 {
            LessIsTransitive(m.key, ms[0].key, ms[j].key);
          }
        }
      } else {
        InsertSorts(m, ms[1..]);
        var rest := Insert(m, ms[1..]);
        forall j | 0 <= j < |rest| ensures Less(ms[0].key, rest[j].key) {
          assert rest[j] in rest;
        }
      }
    }
  }

  lemma {:induction false} SortSorts(ms: seq<Member>)
    requires DistinctKeys(ms)
    ensures Sorted(Sort(ms))
  {
    if ms != [] {
      SortSorts(ms[1..]);
      forall x | x in Sort(ms[1..]) ensures x.key != ms[0].key {
        assert x in ms[1..];
      }
      InsertSorts(ms[0], Sort(ms[1..]));
    }
  }

  lemma SameFirst(a: seq<Member>, b: seq<Member>)
    requires Sorted(a) && Sorted(b) && a != [] && b != [] && a[0] in b && b[0] in a
    ensures a[0] == b[0]
  {
    LessIsTotal(a[0].key, b[0].key);
  }

  /** There is one way to sort a set of members. */
  lemma {:induction false} SortedIsUnique(a: seq<Member>, b: seq<Member>)
    requires Sorted(a) && Sorted(b) && forall x :: x in a <==> x in b
    ensures a == b
  {
    assert b != [] ==> b[0] in a;
    if a != [] {
      assert a[0] in b;
      SameFirst(a, b);
      forall x ensures x in a[1..] <==> x in b[1..] {
        LessIsTotal(a[0].key, a[0].key);
        assert a[0] !in a[1..] && b[0] !in b[1..];
        assert a == [a[0]] + a[1..] && b == [b[0]] + b[1..];
        assert x in a <==> x == a[0] || x in a[1..];
        assert x in b <==> x == b[0] || x in b[1..];
      }
      SortedIsUnique(a[1..], b[1..]);
      assert a == [a[0]] + a[1..] && b == [b[0]] + b[1..];
    }
  }

  lemma SortDependsOnMembersOnly(a: seq<Member>, b: seq<Member>)
    requires DistinctKeys(a) && DistinctKeys(b) && forall x :: x in a <==> x in b
    ensures Sort(a) == Sort(b)
  {
    SortSorts(a);
    SortSorts(b);
    SortedIsUnique(Sort(a), Sort(b));
  }

  /** The form that stands for all the values that are the same as `v`. */
  function Normal(v: Json): Json {
    match v
    case Unsigned(n) => Integer(n)
    case Arr(items) => Arr(NormalItems(items))
    case Obj(ms) => Obj(Sort(NormalMembers(ms)))
    case _ => v
  }

  function NormalItems(items: seq<Json>): (r: seq<Json>)
    ensures |r| == |items| && forall i :: 0 <= i < |r| ==> r[i] == Normal(items[i])
  {
    if items == [] then [] else [Normal(items[0])] + NormalItems(items[1..])
  }

  function NormalMember(m: Member): Member {
    Member(m.key, Normal(m.value))
  }

  function NormalMembers(ms: seq<Member>): (r: seq<Member>)
    ensures |r| == |ms| && forall i :: 0 <= i < |r| ==> r[i] == NormalMember(ms[i])
  {
    if ms == [] then [] else [NormalMember(ms[0])] + NormalMembers(ms[1..])
  }

  /** Object keys are distinct all the way down, as the program's JSON type makes them. */
  predicate WellFormed(v: Json) {
    match v
    case Arr(items) => forall i :: 0 <= i < |items| ==> WellFormed(items[i])
    case Obj(ms) => DistinctKeys(ms) && forall i :: 0 <= i < |ms| ==> WellFormed(ms[i].value)
    case _ => true
  }

  function Number(v: Json): Option<int> {
    match v
    case Unsigned(n) => Some(n)
    case Integer(i) => Some(i)
    case _ => None
  }

  /** The same value: numbers by value, arrays item by item, objects as sets of members. */
  predicate Same(v: Json, w: Json) {
    match v
    case Unsigned(_) => Number(v) == Number(w)
    case Integer(_) => Number(v) == Number(w)
    case Arr(xs) => w.Arr? && |xs| == |w.items| && forall i :: 0 <= i < |xs| ==> Same(xs[i], w.items[i])
    case Obj(xs) =>
      && w.Obj?
      && (forall i :: 0 <= i < |xs| ==> HasSame(xs[i], w.members))
      && (forall j :: 0 <= j < |w.members| ==> HaveSame(xs, w.members[j]))
    case _ => v == w
  }

  predicate SameMember(x: Member, y: Member) {
    x.key == y.key && Same(x.value, y.value)
  }

  predicate HasSame(x: Member, ys: seq<Member>) {
    exists j :: 0 <= j < |ys| && SameMember(x, ys[j])
  }

  predicate HaveSame(xs: seq<Member>, y: Member) {
    exists i :: 0 <= i < |xs| && SameMember(xs[i], y)
  }

  lemma KeysStayDistinct(ms: seq<Member>)
    requires DistinctKeys(ms)
    ensures DistinctKeys(NormalMembers(ms))
  {
  }

  lemma ItemsEqual(xs: seq<Json>, ys: seq<Json>)
    requires |xs| == |ys|
    ensures NormalItems(xs) == NormalItems(ys) <==> forall i :: 0 <= i < |xs| ==> Normal(xs[i]) == Normal(ys[i])
  {
    if NormalItems(xs) == NormalItems(ys) {
      forall i | 0 <= i < |xs| ensures Normal(xs[i]) == Normal(ys[i]) {
        assert NormalItems(xs)[i] == NormalItems(ys)[i];
      }
    }
  }

  /** Sorted sequences are equal when each has the other's members. */
  lemma MembersEqual(a: seq<Member>, b: seq<Member>)
    requires DistinctKeys(a) && DistinctKeys(b)
    ensures Sort(a) == Sort(b) <==> (forall i :: 0 <= i < |a| ==> a[i] in b) && (forall j :: 0 <= j < |b| ==> b[j] in a)
  {
    if Sort(a) == Sort(b) {
      forall i | 0 <= i < |a| ensures a[i] in b {
        assert a[i] in Sort(b);
      }
      forall j | 0 <= j < |b| ensures b[j] in a {
        assert b[j] in Sort(a);
      }
    } else if (forall i :: 0 <= i < |a| ==> a[i] in b) && (forall j :: 0 <= j < |b| ==> b[j] in a) {
      SortDependsOnMembersOnly(a, b);
    }
  }

  lemma HasSameIff(x: Member, ys: seq<Member>)
    requires forall j :: 0 <= j < |ys| ==> Agree(x, ys[j])
    ensures HasSame(x, ys) <==> NormalMember(x) in NormalMembers(ys)
  {
    hide NormalMember, SameMember;
    var b := NormalMembers(ys);
    forall j | 0 <= j < |ys|
        ensures b[j] == NormalMember(ys[j]) && (SameMember(x, ys[j]) <==> NormalMember(x) == b[j]) {
      assert Agree(x, ys[j]);
    }
  }

  lemma HaveSameIff(xs: seq<Member>, y: Member)
    requires forall i :: 0 <= i < |xs| ==> Agree(xs[i], y)
    ensures HaveSame(xs, y) <==> NormalMember(y) in NormalMembers(xs)
  {
    hide NormalMember, SameMember;
    var a := NormalMembers(xs);
    forall i | 0 <= i < |xs|
        ensures a[i] == NormalMember(xs[i]) && (SameMember(xs[i], y) <==> NormalMember(y) == a[i]) {
      assert Agree(xs[i], y);
    }
  }

  /** Two values are the same exactly when they have the same normal form. */
  lemma {:induction false} SameIffNormalsEqual(v: Json, w: Json)
    requires WellFormed(v) && WellFormed(w)
    ensures Same(v, w) <==> Normal(v) == Normal(w)
    decreases v, 1
  {
    match v
    case Arr(xs) =>
      if w.Arr? && |xs| == |w.items| {
        forall i | 0 <= i < |xs| ensures Same(xs[i], w.items[i]) <==> Normal(xs[i]) == Normal(w.items[i]) {
          SameIffNormalsEqual(xs[i], w.items[i]);
        }
        ItemsEqual(xs, w.items);
      }
    case Obj(xs) =>
      if w.Obj? {
        ObjectsSame(v, w);
      }
    case _ =>
  }

  lemma {:induction false} ObjectsSame(v: Json, w: Json)
    requires WellFormed(v) && WellFormed(w) && v.Obj? && w.Obj?
    ensures Same(v, w) <==> Sort(NormalMembers(v.members)) == Sort(NormalMembers(w.members))
    decreases v, 0
  {
    hide NormalMembers, HasSame, HaveSame, Sort, Normal;
    var xs, ys := v.members, w.members;
    forall i, j | 0 <= i < |xs| && 0 <= j < |ys| ensures Agree(xs[i], ys[j]) {
      SameIffNormalsEqual(xs[i].value, ys[j].value);
    }
    MembersSame(xs, ys);
  }

  predicate Agree(x: Member, y: Member) {
    SameMember(x, y) <==> NormalMember(x) == NormalMember(y)
  }

  lemma MembersSame(xs: seq<Member>, ys: seq<Member>)
    requires DistinctKeys(xs) && DistinctKeys(ys)
    requires forall i, j :: 0 <= i < |xs| && 0 <= j < |ys| ==> Agree(xs[i], ys[j])
    ensures (forall i :: 0 <= i < |xs| ==> HasSame(xs[i], ys)) && (forall j :: 0 <= j < |ys| ==> HaveSame(xs, ys[j]))
       <==> Sort(NormalMembers(xs)) == Sort(NormalMembers(ys))
  {
    hide NormalMember, SameMember, HasSame, HaveSame, Sort, Agree;
    var a, b := NormalMembers(xs), NormalMembers(ys);
    forall i | 0 <= i < |xs| ensures HasSame(xs[i], ys) <==> a[i] in b {
      HasSameIff(xs[i], ys);
    }
    forall j | 0 <= j < |ys| ensures HaveSame(xs, ys[j]) <==> b[j] in a {
      HaveSameIff(xs, ys[j]);
    }
    KeysStayDistinct(xs);
    KeysStayDistinct(ys);
    hide DistinctKeys, NormalMembers;
    MembersEqual(a, b);
  }
}
