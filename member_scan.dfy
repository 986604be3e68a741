/** The member scanner of the annotation-based introspector: reflected members become
    accessor candidates (`_findFields`, `_findMethods`, `_checkGetterMethod`,
    `_checkSetterMethod`, `_decap`), filed into per-name builders (`_propBuilder`), and
    constructors are sorted by shape (`introspectDefinition`). */
module MemberScan {
  import opened Wrappers
  import opened PropBuilders

  /** What annotation lookup reports for one member: an ignore marker whose value is
      true, and the value of an explicit-property marker when there is one. */
  datatype Signals = Signals(ignore: bool, explicitName: Option<string>)

  datatype FieldInfo = FieldInfo(
    id: MemberId,
    name: string,
    isEnumConstant: bool,
    isSynthetic: bool,
    isPublic: bool,
    isTransient: bool,
    signals: Signals)

  /** A declared method; `returnsBoxedVoid` is a return type of exactly `Void.class`. */
  datatype MethodInfo = MethodInfo(
    id: MemberId,
    name: string,
    paramCount: nat,
    returnsBoxedVoid: bool,
    isStatic: bool,
    isSynthetic: bool,
    isBridge: bool,
    isPublic: bool,
    signals: Signals)

  datatype ParamType = StringParam | BoxedLongParam | PrimitiveLongParam | OtherParam

  datatype CtorInfo = CtorInfo(id: MemberId, params: seq<ParamType>)

  /** A class with its declared members; `superclass` is None where Java has null. */
  datatype TypeInfo = TypeInfo(
    name: string,
    isObject: bool,
    fields: seq<FieldInfo>,
    methods: seq<MethodInfo>,
    ctors: seq<CtorInfo>,
    superclass: Option<TypeInfo>)

  /** `_isFieldVisible`: a public field that is not transient. */
  function IsFieldVisible(f: FieldInfo): (r: bool)
    ensures f.isTransient ==> !r
    ensures r <==> f.isPublic && !f.isTransient
  {
    !f.isTransient && f.isPublic
  }

  /** `_isGetterVisible`: public methods only, whatever their name or markers. */
  function IsGetterVisible(m: MethodInfo): (r: bool)
    ensures r <==> m.isPublic
  {
    m.isPublic
  }

  /** `_isSetterVisible`: the same test as for getters. */
  function IsSetterVisible(m: MethodInfo): (r: bool)
    ensures r <==> m.isPublic
    ensures r == IsGetterVisible(m)
  {
    m.isPublic
  }

  /* ---------- names ---------- */

  predicate IsUpper(c: char)
  {
    'A' <= c <= 'Z'
  }

  function ToLower(c: char): (r: char)
    ensures IsUpper(c) <==> r != c
    ensures IsUpper(c) ==> r as int == c as int + 32
    ensures !IsUpper(r)
  {
    if IsUpper(c) then (c as int + 32) as char else c
  }

  /** `_decap`: lower-case the first character only when it is upper case and is not
      followed by another upper-case character. */
  function Decap(name: string): (r: string)
    requires |name| > 0
    ensures |r| == |name| && r[1..] == name[1..]
    ensures r != name <==> IsUpper(name[0]) && (|name| == 1 || !IsUpper(name[1]))
    ensures r != name ==> r[0] == ToLower(name[0])
  {
    var c := name[0];
    var lowerC := ToLower(c);
    if c != lowerC && (|name| == 1 || !IsUpper(name[1])) then
      assert ([lowerC] + name[1..])[0] != name[0];
      [lowerC] + name[1..]
    else
      name
  }

  lemma DecapExamples()
    ensures Decap("Name") == "name"
    ensures Decap("URL") == "URL"
    ensures Decap("X") == "x"
    ensures Decap("xValue") == "xValue"
  {
    assert Decap("Name") != "Name";
  }

  predicate StartsWith(s: string, prefix: string)
  {
    |s| >= |prefix| && s[..|prefix|] == prefix
  }

  /** The implied name of a zero-argument method: `getX`, else `isX`, decapitalized. */
  function GetterImplName(name: string): (r: Option<string>)
    ensures StartsWith(name, "get") ==> r == if |name| > 3 then Some(Decap(name[3..])) else None
    ensures !StartsWith(name, "get") && StartsWith(name, "is") ==> r == if |name| > 2 then Some(Decap(name[2..])) else None
    ensures !StartsWith(name, "get") && !StartsWith(name, "is") ==> r.None?
  {
    if StartsWith(name, "get") then
      (if |name| > 3 then Some(Decap(name[3..])) else None)
    else if StartsWith(name, "is") then
      (if |name| > 2 then Some(Decap(name[2..])) else None)
    else None
  }

  /** The implied name of a one-argument method: `setX`, decapitalized. */
  function SetterImplName(name: string): (r: Option<string>)
    ensures r.Some? <==> StartsWith(name, "set") && |name| > 3
    ensures r.Some? ==> r.value == Decap(name[3..])
  {
    if StartsWith(name, "set") && |name| > 3 then Some(Decap(name[3..])) else None
  }

  /* ---------- accessor candidates ---------- */

  /** A candidate accessor filed under `key` in slot `slot`. */
  datatype Candidate = Candidate(key: string, slot: Slot, acc: Accessor)

  /** The accessor of a member with an implied name: ignore first, then the explicit
      name (non-empty or empty), else implicit with the member's own visibility. */
  function SignalledAccessor(implName: string, implicitName: Option<string>, m: MemberId, s: Signals, visible: bool): (a: Accessor)
    ensures Consistent(a) && a.member == m
    ensures a.isNameExplicit ==> a.name.Some? && a.name.value != ""
    ensures s.ignore ==> a.isToIgnore && !a.isVisible && !a.isExplicit && a.name == Some(implName)
    ensures !s.ignore && s.explicitName.Some? && s.explicitName.value != "" ==>
      a.isNameExplicit && a.isExplicit && a.isVisible && !a.isToIgnore && a.name == s.explicitName
    ensures !s.ignore && s.explicitName == Some("") ==>
      a.isExplicit && !a.isNameExplicit && a.isVisible && !a.isToIgnore && a.name == Some(implName)
    ensures !s.ignore && s.explicitName.None? ==>
      !a.isExplicit && !a.isToIgnore && a.isVisible == visible && a.name == implicitName
  {
    if s.ignore then CreateIgnorable(implName, m)
    else match s.explicitName
      case None => CreateImplicit(implicitName, m, visible)
      case Some(e) => if e == "" then CreateVisible(implName, m) else CreateExplicit(e, m)
  }

  /** The accessor of a method without a conventional name: only reached when an
      explicit marker is present; its value still yields to an ignore marker. */
  function ExplicitOnlyAccessor(name0: string, m: MemberId, ignore: bool, e: string): (a: Accessor)
    ensures Consistent(a) && a.member == m
    ensures a.isNameExplicit ==> a.name.Some? && a.name.value != ""
    ensures ignore ==> a.isToIgnore && a.name == Some(name0)
    ensures !ignore ==> a.isExplicit && a.isVisible && (a.isNameExplicit <==> e != "")
  {
    if ignore then CreateIgnorable(name0, m)
    else if e == "" then CreateVisible(name0, m)
    else CreateExplicit(e, m)
  }

  /** A field's candidate, always filed under the field's own name. */
  function FieldCandidate(f: FieldInfo): (r: Option<Candidate>)
    ensures r.Some? <==> !f.isEnumConstant && !f.isSynthetic
    ensures r.Some? ==> r.value.key == f.name && r.value.slot == FieldSlot && r.value.acc.member == f.id
    ensures r.Some? ==> Consistent(r.value.acc)
    ensures r.Some? && f.signals == Signals(false, None) ==>
      r.value.acc.name.None? && r.value.acc.isVisible == (f.isPublic && !f.isTransient)
  {
    if f.isEnumConstant || f.isSynthetic then None
    else Some(Candidate(f.name, FieldSlot, SignalledAccessor(f.name, None, f.id, f.signals, IsFieldVisible(f))))
  }

  /** `_checkGetterMethod`: a zero-argument method becomes a getter candidate under its
      implied name, or, without a conventional name, under its own name when it carries
      an explicit marker. Only a boxed `Void` return type is rejected. */
  function GetterCandidate(m: MethodInfo): (r: Option<Candidate>)
    ensures r.Some? ==> r.value.slot == GetterSlot && r.value.acc.member == m.id && Consistent(r.value.acc)
    ensures m.returnsBoxedVoid ==> r.None?
    ensures !m.returnsBoxedVoid && GetterImplName(m.name).Some? ==>
      r.Some? && r.value.key == GetterImplName(m.name).value
    ensures !m.returnsBoxedVoid && GetterImplName(m.name).None? ==>
      (r.Some? <==> m.signals.explicitName.Some?) && (r.Some? ==> r.value.key == m.name)
    ensures r.Some? && GetterImplName(m.name).Some? ==>
      r.value.acc == SignalledAccessor(r.value.key, Some(r.value.key), m.id, m.signals, m.isPublic)
    ensures r.Some? && GetterImplName(m.name).None? ==>
      r.value.acc == ExplicitOnlyAccessor(m.name, m.id, m.signals.ignore, m.signals.explicitName.value)
  {
    if m.returnsBoxedVoid then None
    else match GetterImplName(m.name)
      case Some(implName) =>
        Some(Candidate(implName, GetterSlot,
          SignalledAccessor(implName, Some(implName), m.id, m.signals, IsGetterVisible(m))))
      case None =>
        match m.signals.explicitName
        case None => None
        case Some(e) => Some(Candidate(m.name, GetterSlot, ExplicitOnlyAccessor(m.name, m.id, m.signals.ignore, e)))
  }

  /** `_checkSetterMethod`: the same for one-argument methods named `setX`. */
  function SetterCandidate(m: MethodInfo): (r: Option<Candidate>)
    ensures r.Some? ==> r.value.slot == SetterSlot && r.value.acc.member == m.id && Consistent(r.value.acc)
    ensures SetterImplName(m.name).Some? ==> r.Some? && r.value.key == SetterImplName(m.name).value
    ensures SetterImplName(m.name).None? ==>
      (r.Some? <==> m.signals.explicitName.Some?) && (r.Some? ==> r.value.key == m.name)
    ensures r.Some? && SetterImplName(m.name).Some? ==>
      r.value.acc == SignalledAccessor(r.value.key, Some(r.value.key), m.id, m.signals, m.isPublic)
    ensures r.Some? && SetterImplName(m.name).None? ==>
      r.value.acc == ExplicitOnlyAccessor(m.name, m.id, m.signals.ignore, m.signals.explicitName.value)
  {
    match SetterImplName(m.name)
    case Some(implName) =>
      Some(Candidate(implName, SetterSlot,
        SignalledAccessor(implName, Some(implName), m.id, m.signals, IsSetterVisible(m))))
    case None =>
      match m.signals.explicitName
      case None => None
      case Some(e) => Some(Candidate(m.name, SetterSlot, ExplicitOnlyAccessor(m.name, m.id, m.signals.ignore, e)))
  }

  /** The per-method step of `_findMethods`: static, synthetic and bridge methods are
      skipped, the rest dispatched on their parameter count. */
  function MethodCandidate(m: MethodInfo): (r: Option<Candidate>)
    ensures r.Some? ==> Consistent(r.value.acc)
    ensures m.isStatic || m.isSynthetic || m.isBridge || m.paramCount > 1 ==> r.None?
    ensures !(m.isStatic || m.isSynthetic || m.isBridge) && m.paramCount == 0 ==> r == GetterCandidate(m)
    ensures !(m.isStatic || m.isSynthetic || m.isBridge) && m.paramCount == 1 ==> r == SetterCandidate(m)
  {
    if m.isStatic || m.isSynthetic || m.isBridge then None
    else if m.paramCount == 0 then GetterCandidate(m)
    else if m.paramCount == 1 then SetterCandidate(m)
    else None
  }

  function AsList(c: Option<Candidate>): seq<Candidate>
  {
    if c.None? then [] else [c.value]
  }

  predicate AllConsistent(cs: seq<Candidate>)
  {
    forall i :: 0 <= i < |cs| ==> Consistent(cs[i].acc)
  }

  /** The candidates of the declared fields, in declaration order. */
  function FieldCandidates(fs: seq<FieldInfo>): (r: seq<Candidate>)
    ensures AllConsistent(r)
    decreases |fs|
  {
    if fs == [] then []
    else FieldCandidates(fs[..|fs| - 1]) + AsList(FieldCandidate(fs[|fs| - 1]))
  }

  /** The candidates of one class's declared methods, in declaration order. */
  function DeclaredMethodCandidates(ms: seq<MethodInfo>): (r: seq<Candidate>)
    ensures AllConsistent(r)
    decreases |ms|
  {
    if ms == [] then []
    else DeclaredMethodCandidates(ms[..|ms| - 1]) + AsList(MethodCandidate(ms[|ms| - 1]))
  }

  /** `_findMethods(currType)`: the superclass chain's candidates first, so that a
      subclass's methods come later; nothing for null or `Object`. */
  function MethodCandidates(t: Option<TypeInfo>): (r: seq<Candidate>)
    ensures AllConsistent(r)
    decreases t
  {
    if t.None? || t.value.isObject then []
    else MethodCandidates(t.value.superclass) + DeclaredMethodCandidates(t.value.methods)
  }

  /* ---------- filing into builders ---------- */

  /** Every builder sits under its own name. */
  ghost predicate KeyedByName(props: map<string, PropBuilder>)
  {
    forall k :: k in props ==> props[k].name == k
  }

  /** Builders as the scanner leaves them: keyed by name, every accessor from a factory. */
  ghost predicate WellScanned(props: map<string, PropBuilder>)
  {
    KeyedByName(props) && forall k :: k in props ==> props[k].AllConsistent()
  }

  /** `_propBuilder(key).<slot> = acc`: find or create the builder, then overwrite one slot. */
  function FileCandidate(props: map<string, PropBuilder>, c: Candidate): (r: map<string, PropBuilder>)
    ensures r.Keys == props.Keys + {c.key}
    ensures r[c.key].Get(c.slot) == Some(c.acc)
    ensures r[c.key].name == if c.key in props then props[c.key].name else c.key
    ensures forall s :: s != c.slot ==> r[c.key].Get(s) == if c.key in props then props[c.key].Get(s) else None
    ensures forall k :: k in props && k != c.key ==> r[k] == props[k]
  {
    var b := if c.key in props then props[c.key] else EmptyBuilder(c.key);
    props[c.key := b.With(c.slot, Some(c.acc))]
  }

  /** A later candidate for the same name and slot replaces the earlier one outright. */
  lemma LaterCandidateOverwrites(props: map<string, PropBuilder>, c1: Candidate, c2: Candidate)
    requires c1.key == c2.key && c1.slot == c2.slot
    ensures FileCandidate(FileCandidate(props, c1), c2) == FileCandidate(props, c2)
  {
    var r1 := FileCandidate(FileCandidate(props, c1), c2);
    var r2 := FileCandidate(props, c2);
    assert r1.Keys == r2.Keys;
    forall k | k in r1 ensures r1[k] == r2[k] {
      if k == c2.key {
        forall s ensures r1[k].Get(s) == r2[k].Get(s) {
        }
        assert r1[k].field == r1[k].Get(FieldSlot) && r2[k].field == r2[k].Get(FieldSlot);
        assert r1[k].getter == r1[k].Get(GetterSlot) && r2[k].getter == r2[k].Get(GetterSlot);
        assert r1[k].setter == r1[k].Get(SetterSlot) && r2[k].setter == r2[k].Get(SetterSlot);
      }
    }
  }

  /** All candidates, filed in order. */
  function FileAll(props: map<string, PropBuilder>, cs: seq<Candidate>): (r: map<string, PropBuilder>)
    ensures props.Keys <= r.Keys
    ensures forall k :: k in props && (forall i :: 0 <= i < |cs| ==> cs[i].key != k) ==> r[k] == props[k]
    decreases |cs|
  {
    if cs == [] then props
    else FileCandidate(FileAll(props, cs[..|cs| - 1]), cs[|cs| - 1])
  }

  /** The names a run of candidates files under. */
  function CandidateKeys(cs: seq<Candidate>): (r: set<string>)
    ensures forall k :: k in r <==> exists i :: 0 <= i < |cs| && cs[i].key == k
    decreases |cs|
  {
    if cs == [] then {}
    else
      var init := cs[..|cs| - 1];
      assert forall i :: 0 <= i < |init| ==> init[i] == cs[i];
      CandidateKeys(init) + {cs[|cs| - 1].key}
  }

  /** Filing adds exactly the candidates' names to the map. */
  lemma {:induction false} FileAllKeys(props: map<string, PropBuilder>, cs: seq<Candidate>)
    ensures FileAll(props, cs).Keys == props.Keys + CandidateKeys(cs)
    decreases |cs|
  {
    if cs != [] {
      FileAllKeys(props, cs[..|cs| - 1]);
    }
  }

  lemma {:induction false} FileAllAppend(props: map<string, PropBuilder>, a: seq<Candidate>, b: seq<Candidate>)
    ensures FileAll(props, a + b) == FileAll(FileAll(props, a), b)
    decreases |b|
  {
    if b == [] {
      assert a + b == a;
    } else {
      assert (a + b)[..|a + b| - 1] == a + b[..|b| - 1];
      FileAllAppend(props, a, b[..|b| - 1]);
    }
  }

  /** Filing one more, possibly absent, candidate. */
  lemma FileAllSnoc(props: map<string, PropBuilder>, cs: seq<Candidate>, c: Option<Candidate>)
    ensures FileAll(props, cs + AsList(c)) == if c.None? then FileAll(props, cs) else FileCandidate(FileAll(props, cs), c.value)
  {
    if c.None? {
      assert cs + AsList(c) == cs;
    } else {
      assert (cs + AsList(c))[..|cs|] == cs;
    }
  }

  /** Filing keeps builders keyed by name and accessors consistent. */
  lemma {:induction false} FileAllWellScanned(props: map<string, PropBuilder>, cs: seq<Candidate>)
    requires WellScanned(props) && AllConsistent(cs)
    ensures WellScanned(FileAll(props, cs))
    decreases |cs|
  {
    if cs != [] {
      FileAllWellScanned(props, cs[..|cs| - 1]);
      var p := FileAll(props, cs[..|cs| - 1]);
      var c := cs[|cs| - 1];
      var r := FileCandidate(p, c);
      forall k | k in r ensures r[k].name == k && r[k].AllConsistent() {
        if k == c.key {
          forall s | r[k].Get(s).Some? ensures Consistent(r[k].Get(s).value) {
            if s != c.slot {
              assert k in p;
            }
          }
        }
      }
    }
  }

  /** The builder under each name holds, in each slot, the accessor of the last
      candidate filed for that name and slot. */
  lemma {:induction false} LastCandidateWins(props: map<string, PropBuilder>, cs: seq<Candidate>, i: nat)
    requires i < |cs|
    requires forall j :: i < j < |cs| ==> cs[j].key != cs[i].key || cs[j].slot != cs[i].slot
    ensures cs[i].key in FileAll(props, cs)
    ensures FileAll(props, cs)[cs[i].key].Get(cs[i].slot) == Some(cs[i].acc)
    decreases |cs|
  {
    if i < |cs| - 1 {
      var init := cs[..|cs| - 1];
      assert init[i] == cs[i];
      LastCandidateWins(props, init, i);
    }
  }

  /** A name and slot no candidate targets keep what they held before filing. */
  lemma {:induction false} UntargetedSlotKept(props: map<string, PropBuilder>, cs: seq<Candidate>, k: string, s: Slot)
    requires k in props
    requires forall j :: 0 <= j < |cs| ==> cs[j].key != k || cs[j].slot != s
    ensures k in FileAll(props, cs) && FileAll(props, cs)[k].Get(s) == props[k].Get(s)
    decreases |cs|
  {
    if cs != [] {
      UntargetedSlotKept(props, cs[..|cs| - 1], k, s);
    }
  }

  /** Superclass methods are scanned first, so the last accessor a class declares for a
      name and slot overrides whatever its superclasses declared for them. */
  lemma SubclassDeclarationWins(props: map<string, PropBuilder>, t: TypeInfo, i: nat)
    requires !t.isObject
    requires i < |DeclaredMethodCandidates(t.methods)|
    requires var ds := DeclaredMethodCandidates(t.methods);
      forall j :: i < j < |ds| ==> ds[j].key != ds[i].key || ds[j].slot != ds[i].slot
    ensures var c := DeclaredMethodCandidates(t.methods)[i];
      var r := FileAll(props, MethodCandidates(Some(t)));
      c.key in r && r[c.key].Get(c.slot) == Some(c.acc)
  {
    var sup := MethodCandidates(t.superclass);
    var ds := DeclaredMethodCandidates(t.methods);
    assert MethodCandidates(Some(t)) == sup + ds;
    FileAllAppend(props, sup, ds);
    LastCandidateWins(FileAll(props, sup), ds, i);
  }

  /* ---------- constructors ---------- */

  datatype CtorShape = NoArgs | SingleString | SingleLong | OtherShape

  /** Zero parameters, one `String`, one `Long` or `long`, or anything else. */
  function ShapeOf(c: CtorInfo): CtorShape
  {
    if |c.params| == 0 then NoArgs
    else if |c.params| == 1 then
      match c.params[0]
      case StringParam => SingleString
      case BoxedLongParam => SingleLong
      case PrimitiveLongParam => SingleLong
      case OtherParam => OtherShape
    else OtherShape
  }

  /** The last constructor of a shape: the one a loop that overwrites on each match keeps. */
  function LastWithShape(cs: seq<CtorInfo>, shape: CtorShape): (r: Option<MemberId>)
    ensures r.None? <==> forall i :: 0 <= i < |cs| ==> ShapeOf(cs[i]) != shape
    ensures r.Some? ==> exists i :: 0 <= i < |cs| && cs[i].id == r.value && ShapeOf(cs[i]) == shape &&
                                   (forall j :: i < j < |cs| ==> ShapeOf(cs[j]) != shape)
    decreases |cs|
  {
    if cs == [] then None
    else if ShapeOf(cs[|cs| - 1]) == shape then Some(cs[|cs| - 1].id)
    else
      var init := cs[..|cs| - 1];
      var r := LastWithShape(init, shape);
      assert forall i :: 0 <= i < |init| ==> init[i] == cs[i];
      if r.None? then r
      else
        var i :| 0 <= i < |init| && init[i].id == r.value && ShapeOf(init[i]) == shape &&
                 (forall j :: i < j < |init| ==> ShapeOf(init[j]) != shape);
        assert ShapeOf(cs[|cs| - 1]) != shape;
        r
  }
}
