/**
 `canonical_json`: one text for all the values that are the same, written by a traversal that
 appends to a shared output and stops at the first string or node it cannot write.
 */
module CanonicalJson {
  import opened Optional
  import opened Utf8
  import opened JsonValue
  import opened JsonText

  datatype Error = InvalidUtf8 | UnsupportedType

  datatype Result = Written(text: seq<Byte>) | Failed(error: Error)

  /** The one text of `v`. */
  function CanonicalText(v: Json): seq<Byte> {
    Text(Normal(v))
  }

  /** Nothing in `v`, wherever it is, is unsupported or a string that is not UTF-8. */
  ghost predicate Clean(v: Json) {
    match v
    case Str(s) => Valid(s)
    case Arr(items) => forall i :: 0 <= i < |items| ==> Clean(items[i])
    case Obj(ms) => forall i :: 0 <= i < |ms| ==> CleanMember(ms[i])
    case Unsupported => false
    case _ => true
  }

  ghost predicate CleanMember(m: Member) {
    Valid(m.key) && Clean(m.value)
  }

  /** What a traversal of `v` in order finds wrong first. */
  ghost function Failure(v: Json): Option<Error> {
    match v
    case Str(s) => StringFailure(s)
    case Arr(items) => ItemsFailure(items)
    case Obj(ms) => MembersFailure(ms)
    case Unsupported => Some(UnsupportedType)
    case _ => None
  }

  ghost function StringFailure(s: seq<Byte>): Option<Error> {
    if Valid(s) then None else Some(InvalidUtf8)
  }

  ghost function ItemsFailure(items: seq<Json>): Option<Error> {
    if items == [] then None
    else if Failure(items[0]).Some? then Failure(items[0])
    else ItemsFailure(items[1..])
  }

  ghost function MembersFailure(ms: seq<Member>): Option<Error> {
    if ms == [] then None
    else if MemberFailure(ms[0]).Some? then MemberFailure(ms[0])
    else MembersFailure(ms[1..])
  }

  ghost function MemberFailure(m: Member): Option<Error> {
    if Valid(m.key) then Failure(m.value) else Some(InvalidUtf8)
  }

  /** The traversal finds something wrong exactly when something is. */
  lemma {:induction false} FailureIffNotClean(v: Json)
    ensures Failure(v).None? <==> Clean(v)
    decreases v
  {
    match v
    case Arr(items) => ItemsFailureIff(items);
    case Obj(ms) => MembersFailureIff(ms);
    case _ =>
  }

  lemma {:induction false} ItemsFailureIff(items: seq<Json>)
    ensures ItemsFailure(items).None? <==> forall i :: 0 <= i < |items| ==> Clean(items[i])
    decreases items
  {
    if items != [] {
      FailureIffNotClean(items[0]);
      ItemsFailureIff(items[1..]);
      assert forall i :: 1 <= i < |items| ==> items[i] == items[1..][i - 1];
    }
  }

  lemma {:induction false} MembersFailureIff(ms: seq<Member>)
    ensures MembersFailure(ms).None? <==> forall i :: 0 <= i < |ms| ==> CleanMember(ms[i])
    decreases ms
  {
    if ms != [] {
      FailureIffNotClean(ms[0].value);
      MembersFailureIff(ms[1..]);
      assert forall i :: 1 <= i < |ms| ==> ms[i] == ms[1..][i - 1];
    }
  }

  /** Normalizing neither hides nor makes a failure, and leaves what the reader can return. */
  lemma {:induction false} NormalIsAsClean(v: Json)
    ensures Clean(Normal(v)) <==> Clean(v)
    ensures Clean(v) ==> Plain(Normal(v))
  {
    match v
    case Arr(items) =>
      forall i | 0 <= i < |items|
          ensures (Clean(Normal(items[i])) <==> Clean(items[i])) && (Clean(items[i]) ==> Plain(Normal(items[i]))) {
        NormalIsAsClean(items[i]);
      }
    case Obj(ms) =>
      forall i | 0 <= i < |ms| ensures MemberAsClean(ms[i]) {
        NormalIsAsClean(ms[i].value);
      }
      SortedMembersAsClean(ms);
    case _ =>
  }

  ghost predicate MemberAsClean(m: Member) {
    (CleanMember(NormalMember(m)) <==> CleanMember(m)) && (CleanMember(m) ==> Plain(Normal(m.value)))
  }

  lemma SortedMembersAsClean(ms: seq<Member>)
    requires forall i :: 0 <= i < |ms| ==> MemberAsClean(ms[i])
    ensures Clean(Obj(Sort(NormalMembers(ms)))) <==> Clean(Obj(ms))
    ensures Clean(Obj(ms)) ==> Plain(Obj(Sort(NormalMembers(ms))))
  {
    var a, b := NormalMembers(ms), Sort(NormalMembers(ms));
    hide Sort, Normal, NormalMembers, CleanMember;
    if Clean(Obj(b)) {
      forall i | 0 <= i < |ms| ensures CleanMember(ms[i]) {
        assert a[i] == NormalMember(ms[i]) && a[i] in b;
      }
    }
    if Clean(Obj(ms)) {
      forall k | 0 <= k < |b| ensures CleanMember(b[k]) && Plain(b[k].value) {
        assert b[k] in a;
        var i :| 0 <= i < |ms| && a[i] == b[k];
        assert MemberAsClean(ms[i]) && CleanMember(ms[i]);
      }
    }
  }

  lemma {:induction false} InsertKeepsNormal(m: Member, ms: seq<Member>)
    ensures NormalMembers(Insert(m, ms)) == Insert(NormalMember(m), NormalMembers(ms))
  {
    if ms != [] && !Less(m.key, ms[0].key) {
      InsertKeepsNormal(m, ms[1..]);
    }
  }

  /** Sorting looks at keys only. */
  lemma {:induction false} SortKeepsNormal(ms: seq<Member>)
    ensures NormalMembers(Sort(ms)) == Sort(NormalMembers(ms))
  {
    if ms != [] {
      SortKeepsNormal(ms[1..]);
      InsertKeepsNormal(ms[0], Sort(ms[1..]));
    }
  }

  lemma EscapedStep(before: seq<Byte>, value: seq<Byte>, i: nat)
    requires i < |value|
    ensures before + Escaped(value[i..]) == before + EscapedByte(value[i]) + Escaped(value[i + 1..])
  {
    assert value[i..][1..] == value[i + 1..];
  }

  lemma Bracketed(start: seq<Byte>, open: seq<Byte>, inner: seq<Byte>, close: seq<Byte>)
    ensures start + open + inner + close == start + (open + inner + close)
  {
  }

  lemma Regrouped(a: seq<Byte>, b: seq<Byte>, c: seq<Byte>, d: seq<Byte>)
    ensures a + (b + c) + d == a + (b + c + d)
  {
  }

  lemma Flatten(a: seq<Byte>, b: seq<Byte>, c: seq<Byte>, d: seq<Byte>, e: seq<Byte>)
    ensures a + b + c + d + e == a + (b + (c + d + e))
  {
  }

  /** Before the element at `i`: the output and what is left make up the whole. */
  ghost predicate ItemsLeft(output: seq<Byte>, ns: seq<Json>, i: nat, whole: seq<Byte>) {
    i <= |ns| && output + ItemsText(ns[i..], i == 0) == whole && ItemsFailure(ns[i..]) == ItemsFailure(ns)
  }

  lemma ItemsStart(start: seq<Byte>, ns: seq<Json>)
    ensures ItemsLeft(start + [OPEN_ARRAY], ns, 0, start + [OPEN_ARRAY] + ItemsText(ns, true))
  {
    assert ns[0..] == ns;
  }

  lemma ItemsStep(output: seq<Byte>, ns: seq<Json>, i: nat, whole: seq<Byte>)
    requires ItemsLeft(output, ns, i, whole) && i < |ns|
    ensures Failure(ns[i]).None? ==> ItemsLeft(output + Separator(i == 0) + Text(ns[i]), ns, i + 1, whole)
    ensures Failure(ns[i]).Some? ==> ItemsFailure(ns) == Failure(ns[i])
  {
    hide Text, Failure, Separator;
    assert ns[i..][1..] == ns[i + 1..];
    Bracketed(output, Separator(i == 0), Text(ns[i]), ItemsText(ns[i + 1..], false));
  }

  lemma NoItemsLeft(output: seq<Byte>, ns: seq<Json>, whole: seq<Byte>)
    requires ItemsLeft(output, ns, |ns|, whole)
    ensures output == whole && ItemsFailure(ns).None?
  {
  }

  ghost predicate MembersLeft(output: seq<Byte>, ns: seq<Member>, i: nat, whole: seq<Byte>) {
    i <= |ns| && output + MembersText(ns[i..], i == 0) == whole && MembersFailure(ns[i..]) == MembersFailure(ns)
  }

  lemma MembersStart(start: seq<Byte>, ns: seq<Member>)
    ensures MembersLeft(start + [OPEN_OBJECT], ns, 0, start + [OPEN_OBJECT] + MembersText(ns, true))
  {
    assert ns[0..] == ns;
  }

  lemma MembersStep(output: seq<Byte>, ns: seq<Member>, i: nat, whole: seq<Byte>)
    requires MembersLeft(output, ns, i, whole) && i < |ns|
    ensures MemberFailure(ns[i]).None? ==>
            MembersLeft(output + (Separator(i == 0) + MemberText(ns[i])), ns, i + 1, whole)
    ensures MemberFailure(ns[i]).Some? ==> MembersFailure(ns) == MemberFailure(ns[i])
  {
    hide MemberText, MemberFailure, Separator;
    assert ns[i..][1..] == ns[i + 1..];
    Regrouped(output, Separator(i == 0), MemberText(ns[i]), MembersText(ns[i + 1..], false));
  }

  lemma NoMembersLeft(output: seq<Byte>, ns: seq<Member>, whole: seq<Byte>)
    requires MembersLeft(output, ns, |ns|, whole)
    ensures output == whole && MembersFailure(ns).None?
  {
  }

  /** What appending a part with this text and this failure does to the output. */
  ghost predicate Appended(ok: bool, before: seq<Byte>, after: seq<Byte>, error: Error, text: seq<Byte>,
      failure: Option<Error>) {
    && (ok <==> failure.None?)
    && (ok ==> after == before + text)
    && (!ok ==> failure == Some(error))
  }

  class Writer {
    var output: seq<Byte>
    var error: Error

    constructor ()
      ensures output == [] && error == UnsupportedType
    {
      output := [];
      error := UnsupportedType;
    }

    method AppendByte(byte: Byte)
      modifies this`output
      ensures output == old(output) + EscapedByte(byte)
    {
      if byte == QUOTE || byte == BACKSLASH {
        output := output + [BACKSLASH];
        output := output + [byte];
      } else if byte <= 0x1F {
        output := output + [BACKSLASH, 'u' as int, '0' as int, '0' as int];
        output := output + [HexDigit(byte / 16)];
        output := output + [HexDigit(byte % 16)];
      } else {
        output := output + [byte];
      }
    }

    method AppendString(value: seq<Byte>) returns (ok: bool)
      modifies this
      ensures Appended(ok, old(output), output, error, Quoted(value), StringFailure(value))
    {
      hide Valid;
      ok := ValidUtf8(value);
      if !ok {
        error := InvalidUtf8;
        return;
      }
      ghost var whole := output + [QUOTE] + Escaped(value);
      Bracketed(output, [QUOTE], Escaped(value), [QUOTE]);
      output := output + [QUOTE];
      var i := 0;
      while i < |value|
        invariant 0 <= i <= |value|
        invariant output + Escaped(value[i..]) == whole
      {
        EscapedStep(output, value, i);
        AppendByte(value[i]);
        i := i + 1;
      }
      assert Escaped(value[i..]) == [] && output == whole;
      output := output + [QUOTE];
    }

    method AppendArray(value: Json) returns (ok: bool)
      requires value.Arr? && WellFormed(value)
      modifies this
      ensures Appended(ok, old(output), output, error, CanonicalText(value), Failure(Normal(value)))
      decreases value, 0
    {
      var items := value.items;
      ghost var ns := NormalItems(items);
      assert CanonicalText(value) == [OPEN_ARRAY] + ItemsText(ns, true) + [CLOSE_ARRAY]
             && Failure(Normal(value)) == ItemsFailure(ns);
      hide Text, Normal, Failure, ItemsText, ItemsFailure, ItemsLeft;
      ghost var whole := output + [OPEN_ARRAY] + ItemsText(ns, true);
      ItemsStart(output, ns);
      Bracketed(output, [OPEN_ARRAY], ItemsText(ns, true), [CLOSE_ARRAY]);
      output := output + [OPEN_ARRAY];
      var first := true;
      var i := 0;
      while i < |items|
        invariant 0 <= i <= |items| && first == (i == 0)
        invariant ItemsLeft(output, ns, i, whole)
      {
        ItemsStep(output, ns, i, whole);
        assert output + [] == output;
        if !first {
          output := output + [COMMA];
        }
        first := false;
        ok := AppendValue(items[i]);
        if !ok { return; }
        i := i + 1;
      }
      NoItemsLeft(output, ns, whole);
      output := output + [CLOSE_ARRAY];
      return true;
    }

    /** One turn of the loop over the members. */
    method AppendMember(m: Member, first: bool) returns (ok: bool)
      requires WellFormed(m.value)
      modifies this
      ensures Appended(ok, old(output), output, error, Separator(first) + MemberText(NormalMember(m)),
                       MemberFailure(NormalMember(m)))
      decreases m, 2
    {
      hide Text, Normal, Failure, Quoted, Valid;
      assert output + [] == output;
      if !first {
        output := output + [COMMA];
      }
      ok := AppendString(m.key);
      if !ok { return; }
      output := output + [COLON];
      ok := AppendValue(m.value);
      Flatten(old(output), Separator(first), Quoted(m.key), [COLON], CanonicalText(m.value));
    }

    method AppendObject(value: Json) returns (ok: bool)
      requires value.Obj? && WellFormed(value)
      modifies this
      ensures Appended(ok, old(output), output, error, CanonicalText(value), Failure(Normal(value)))
      decreases value, 0
    {
      var members := Sort(value.members);
      ghost var ns := NormalMembers(members);
      SortKeepsNormal(value.members);
      assert CanonicalText(value) == [OPEN_OBJECT] + MembersText(ns, true) + [CLOSE_OBJECT]
             && Failure(Normal(value)) == MembersFailure(ns);
      hide Text, Normal, Failure, Quoted, Sort, MembersText, MembersFailure, MembersLeft, MemberText, MemberFailure;
      ghost var whole := output + [OPEN_OBJECT] + MembersText(ns, true);
      MembersStart(output, ns);
      Bracketed(output, [OPEN_OBJECT], MembersText(ns, true), [CLOSE_OBJECT]);
      output := output + [OPEN_OBJECT];
      var first := true;
      var i := 0;
      while i < |members|
        invariant 0 <= i <= |members| && first == (i == 0)
        invariant MembersLeft(output, ns, i, whole)
      {
        MembersStep(output, ns, i, whole);
        assert members[i] in value.members;
        ok := AppendMember(members[i], first);
        if !ok { return; }
        first := false;
        i := i + 1;
      }
      NoMembersLeft(output, ns, whole);
      output := output + [CLOSE_OBJECT];
      return true;
    }

    method AppendValue(value: Json) returns (ok: bool)
      requires WellFormed(value)
      modifies this
      ensures Appended(ok, old(output), output, error, CanonicalText(value), Failure(Normal(value)))
      decreases value, 1
    {
      match value {
        case Null =>
          output := output + Ascii("null");
          return true;
        case Bool(truth) =>
          output := output + if truth then Ascii("true") else Ascii("false");
          return true;
        case Unsigned(magnitude) =>
          output := output + NumberText(magnitude);
          return true;
        case Integer(number) =>
          output := output + NumberText(number);
          return true;
        case Str(bytes) =>
          ok := AppendString(bytes);
        case Arr(_) =>
          ok := AppendArray(value);
        case Obj(_) =>
          ok := AppendObject(value);
        case Unsupported =>
          error := UnsupportedType;
          return false;
      }
    }
  }

  /** Fails exactly for values with something that cannot be written, with the first such thing in order. */
  method Canonical(value: Json) returns (result: Result)
    requires WellFormed(value)
    ensures result.Written? <==> Clean(value)
    ensures result.Written? ==> result.text == CanonicalText(value)
    ensures result.Failed? ==> Failure(Normal(value)) == Some(result.error)
  {
    FailureIffNotClean(Normal(value));
    NormalIsAsClean(value);
    var writer := new Writer();
    var ok := writer.AppendValue(value);
    if !ok { return Failed(writer.error); }
    return Written(writer.output);
  }

  /** Normalizing changes nothing about a value, nor about a normal form. */
  lemma {:induction false} NormalIsSame(v: Json)
    requires WellFormed(v)
    ensures WellFormed(Normal(v)) && Normal(Normal(v)) == Normal(v)
  {
    match v
    case Arr(items) =>
      forall i | 0 <= i < |items| ensures WellFormed(Normal(items[i])) && Normal(Normal(items[i])) == Normal(items[i]) {
        NormalIsSame(items[i]);
      }
      var ns := NormalItems(items);
      assert NormalItems(ns) == ns;
    case Obj(ms) =>
      forall i | 0 <= i < |ms|
          ensures WellFormed(NormalMember(ms[i]).value) && NormalMember(NormalMember(ms[i])) == NormalMember(ms[i]) {
        NormalIsSame(ms[i].value);
      }
      SortedIsNormal(ms);
    case _ =>
  }

  lemma SortedIsNormal(ms: seq<Member>)
    requires DistinctKeys(ms)
    requires forall i :: 0 <= i < |ms| ==>
             WellFormed(NormalMember(ms[i]).value) && NormalMember(NormalMember(ms[i])) == NormalMember(ms[i])
    ensures var r := Obj(Sort(NormalMembers(ms))); WellFormed(r) && Normal(r) == r
  {
    var a := NormalMembers(ms);
    var b := Sort(a);
    KeysStayDistinct(ms);
    SortSorts(a);
    forall i, j | 0 <= i < j < |b| ensures b[i].key != b[j].key {
      LessIsTotal(b[i].key, b[j].key);
    }
    forall k | 0 <= k < |b| ensures NormalMember(b[k]) == b[k] && WellFormed(b[k].value) {
      assert b[k] in a;
    }
    assert NormalMembers(b) == b;
    SortSorts(b);
    SortedIsUnique(Sort(b), b);
  }

  /** The reader gets the value back, and writing that again gives the same text. */
  lemma ReadsBack(v: Json)
    requires WellFormed(v) && Clean(v)
    ensures ReadValue(CanonicalText(v)) == Some((Normal(v), []))
    ensures Same(v, Normal(v)) && CanonicalText(Normal(v)) == CanonicalText(v)
  {
    NormalIsAsClean(v);
    RoundTrip(Normal(v), []);
    assert Text(Normal(v)) + [] == Text(Normal(v));
    NormalIsSame(v);
    SameIffNormalsEqual(v, Normal(v));
  }

  /** In every object, however deep, the keys come in the order of their bytes. */
  ghost predicate KeysAscend(v: Json) {
    match v
    case Arr(items) => forall i :: 0 <= i < |items| ==> KeysAscend(items[i])
    case Obj(ms) =>
      && (forall i, j :: 0 <= i < j < |ms| ==> Precedes(ms[i].key, ms[j].key))
      && (forall i :: 0 <= i < |ms| ==> KeysAscend(ms[i].value))
    case _ => true
  }

  lemma {:induction false} NormalAscends(v: Json)
    requires WellFormed(v)
    ensures KeysAscend(Normal(v))
  {
    match v
    case Arr(items) =>
      forall i | 0 <= i < |items| ensures KeysAscend(Normal(items[i])) {
        NormalAscends(items[i]);
      }
    case Obj(ms) =>
      forall i | 0 <= i < |ms| ensures KeysAscend(NormalMember(ms[i]).value) {
        NormalAscends(ms[i].value);
      }
      SortedAscends(ms);
    case _ =>
  }

  lemma SortPrecedes(ms: seq<Member>)
    requires DistinctKeys(ms)
    ensures forall i, j :: 0 <= i < j < |ms| ==> Precedes(Sort(ms)[i].key, Sort(ms)[j].key)
  {
    hide Precedes, Sort, Less;
    var b := Sort(ms);
    SortSorts(ms);
    forall i, j | 0 <= i < j < |b| ensures Precedes(b[i].key, b[j].key) {
      LessIff(b[i].key, b[j].key);
    }
  }

  lemma SortedAscends(ms: seq<Member>)
    requires DistinctKeys(ms) && forall i :: 0 <= i < |ms| ==> KeysAscend(NormalMember(ms[i]).value)
    ensures KeysAscend(Obj(Sort(NormalMembers(ms))))
  {
    hide Precedes, Normal, Sort, KeysAscend, DistinctKeys, NormalMembers, NormalMember;
    var a := NormalMembers(ms);
    var b := Sort(a);
    KeysStayDistinct(ms);
    SortPrecedes(a);
    forall k | 0 <= k < |b| ensures KeysAscend(b[k].value) {
      assert b[k] in a;
      var i :| 0 <= i < |ms| && a[i] == b[k];
      assert a[i] == NormalMember(ms[i]);
    }
    ObjectAscends(b);
  }

  lemma ObjectAscends(ms: seq<Member>)
    requires forall i, j :: 0 <= i < j < |ms| ==> Precedes(ms[i].key, ms[j].key)
    requires forall i :: 0 <= i < |ms| ==> KeysAscend(ms[i].value)
    ensures KeysAscend(Obj(ms))
  {
    hide Precedes;
  }

  /** What a reader finds in a canonical text has its keys in that order. */
  lemma CanonicalKeysAscend(v: Json)
    requires WellFormed(v) && Clean(v)
    ensures ReadValue(CanonicalText(v)).Some? && KeysAscend(ReadValue(CanonicalText(v)).value.0)
  {
    ReadsBack(v);
    NormalAscends(v);
  }

  /** Equal texts mean the same value, and the same value has one text. */
  lemma TextsEqualIffSame(v: Json, w: Json)
    requires WellFormed(v) && WellFormed(w) && Clean(v) && Clean(w)
    ensures CanonicalText(v) == CanonicalText(w) <==> Same(v, w)
  {
    ReadsBack(v);
    ReadsBack(w);
    SameIffNormalsEqual(v, w);
  }

  /** The text does not depend on the order in which members were inserted. */
  lemma InsertionOrderIsIrrelevant(a: seq<Member>, b: seq<Member>)
    requires DistinctKeys(a) && DistinctKeys(b) && forall m :: m in a <==> m in b
    ensures CanonicalText(Obj(a)) == CanonicalText(Obj(b))
    ensures Failure(Normal(Obj(a))) == Failure(Normal(Obj(b)))
  {
    SortDependsOnMembersOnly(a, b);
    SortKeepsNormal(a);
    SortKeepsNormal(b);
  }
}
