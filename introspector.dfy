/** `AnnotationBasedIntrospector`: one instance per type and direction, whose scanning
    methods fill a map of builders that the pruning pass then resolves. */
module Introspection {
  import opened Wrappers
  import opened StringOrder
  import opened PropBuilders
  import opened MemberScan
  import opened Pruning

  /** `POJODefinition`: the type, its resolved properties and the three constructors. */
  datatype PojoDefinition = PojoDefinition(
    typeName: string,
    props: seq<Prop>,
    defaultCtor: Option<MemberId>,
    stringCtor: Option<MemberId>,
    longCtor: Option<MemberId>)

  /** The builders after `_findFields` and `_findMethods` on a fresh introspector. */
  ghost function Scanned(t: TypeInfo): (r: map<string, PropBuilder>)
    ensures WellScanned(r)
  {
    var fields := FieldCandidates(t.fields);
    FileAllWellScanned(map[], fields);
    var afterFields := FileAll(map[], fields);
    FileAllWellScanned(afterFields, MethodCandidates(Some(t)));
    FileAll(afterFields, MethodCandidates(Some(t)))
  }

  /** The definition `introspectDefinition` returns for type `t`, given the order in
      which the builder map is iterated. Constructors are looked for only when
      deserializing. */
  ghost function Definition(t: TypeInfo, forSer: bool, order: seq<string>): (d: PojoDefinition)
    ensures d.typeName == t.name
    ensures forSer ==> d.defaultCtor.None? && d.stringCtor.None? && d.longCtor.None?
  {
    var (props, _) := PruneReadProperties(Scanned(t), order, forSer, if forSer then None else Some({}));
    PojoDefinition(t.name, props,
      if forSer then None else LastWithShape(t.ctors, NoArgs),
      if forSer then None else LastWithShape(t.ctors, SingleString),
      if forSer then None else LastWithShape(t.ctors, SingleLong))
  }

  /** What a definition promises whatever the iteration order: property names unique and
      ascending, each property backed by a member, each name either a builder kept
      under its own name or the explicit name some builder was renamed to, and the
      constructors the last declared ones of their shapes. */
  lemma DefinitionContract(t: TypeInfo, forSer: bool, order: seq<string>)
    requires Distinct(order) && forall k :: k in order <==> k in Scanned(t)
    ensures var d := Definition(t, forSer, order);
      var props0 := Scanned(t);
      && d.typeName == t.name
      && StrictlySorted(Names(d.props))
      && (forall i :: 0 <= i < |d.props| ==> Backed(d.props[i]))
      && (forall n :: n in Names(d.props) <==>
            (n in props0 && Judge(props0[n], forSer).Keep?) ||
            (exists k :: k in props0 && Judge(props0[k], forSer).Rename? && Judge(props0[k], forSer).renamed.name == n))
      && (forSer ==> d.defaultCtor.None? && d.stringCtor.None? && d.longCtor.None?)
      && (!forSer ==> (d.defaultCtor.Some? <==> exists i :: 0 <= i < |t.ctors| && ShapeOf(t.ctors[i]) == NoArgs))
  {
    PruneReadPropertiesContract(Scanned(t), order, forSer, if forSer then None else Some({}));
  }

  /** The names a deserializing introspection would make ignorable: those of the
      builders `MarksIgnorable` picks. The definition does not carry them. */
  lemma DeserializationIgnorals(t: TypeInfo, order: seq<string>)
    requires Distinct(order) && forall k :: k in order <==> k in Scanned(t)
    ensures PruneReadProperties(Scanned(t), order, false, Some({})).1 ==
      Some(set k | k in Scanned(t) && MarksIgnorable(Scanned(t)[k]))
  {
    PruneReadPropertiesContract(Scanned(t), order, false, Some({}));
    assert {} + (set k | k in Scanned(t) && MarksIgnorable(Scanned(t)[k])) ==
      (set k | k in Scanned(t) && MarksIgnorable(Scanned(t)[k]));
  }

  class Introspector {
    const pojoType: TypeInfo
    const forSerialization: bool
    var props: map<string, PropBuilder>
    /** None when serializing: only deserialization collects ignorable names. */
    var toIgnore: Option<set<string>>

    constructor(t: TypeInfo, serialization: bool)
      ensures pojoType == t && forSerialization == serialization
      ensures props == map[] && toIgnore == if serialization then None else Some({})
    {
      pojoType := t;
      forSerialization := serialization;
      props := map[];
      toIgnore := if serialization then None else Some({});
    }

    /** `pojoDefinitionForDeserialization`. */
    static method PojoDefinitionForDeserialization(t: TypeInfo) returns (def: PojoDefinition, ghost order: seq<string>)
      ensures Distinct(order) && forall k :: k in order <==> k in Scanned(t)
      ensures def == Definition(t, false, order)
    {
      var intro := new Introspector(t, false);
      def, order := intro.IntrospectDefinition();
    }

    /** `pojoDefinitionForSerialization`. */
    static method PojoDefinitionForSerialization(t: TypeInfo) returns (def: PojoDefinition, ghost order: seq<string>)
      ensures Distinct(order) && forall k :: k in order <==> k in Scanned(t)
      ensures def == Definition(t, true, order)
    {
      var intro := new Introspector(t, true);
      def, order := intro.IntrospectDefinition();
    }

    /** `introspectDefinition` on a fresh introspector. */
    method IntrospectDefinition() returns (def: PojoDefinition, ghost order: seq<string>)
      requires props == map[] && toIgnore == if forSerialization then None else Some({})
      modifies this
      ensures Distinct(order) && forall k :: k in order <==> k in Scanned(pojoType)
      ensures def == Definition(pojoType, forSerialization, order)
      ensures toIgnore == Pruning.PruneReadProperties(Scanned(pojoType), order, forSerialization, old(toIgnore)).1
    {
      var defaultCtor: Option<MemberId> := None;
      var stringCtor: Option<MemberId> := None;
      var longCtor: Option<MemberId> := None;
      if !forSerialization {
        defaultCtor, stringCtor, longCtor := FindCreators(pojoType.ctors);
      }
      FindFields();
      FindMethods();
      assert props == Scanned(pojoType);
      var pruned;
      pruned, order := PruneReadProperties();
      def := PojoDefinition(pojoType.name, pruned, defaultCtor, stringCtor, longCtor);
    }

    /** The constructor loop of `introspectDefinition`: each constructor of a known
        shape overwrites the one found before it. */
    static method FindCreators(ctors: seq<CtorInfo>)
      returns (defaultCtor: Option<MemberId>, stringCtor: Option<MemberId>, longCtor: Option<MemberId>)
      ensures defaultCtor == LastWithShape(ctors, NoArgs)
      ensures stringCtor == LastWithShape(ctors, SingleString)
      ensures longCtor == LastWithShape(ctors, SingleLong)
    {
      defaultCtor, stringCtor, longCtor := None, None, None;
      for i := 0 to |ctors|
        invariant defaultCtor == LastWithShape(ctors[..i], NoArgs)
        invariant stringCtor == LastWithShape(ctors[..i], SingleString)
        invariant longCtor == LastWithShape(ctors[..i], SingleLong)
      {
        var seen, c := ctors[..i + 1], ctors[i];
        assert seen[..i] == ctors[..i] && seen[i] == c;
        defaultCtor, stringCtor, longCtor := NoteCreator(c, defaultCtor, stringCtor, longCtor);
      }
      assert ctors[..|ctors|] == ctors;
    }

    /** One iteration of the constructor loop: the parameter types decide which
        creator, if any, the constructor becomes. */
    static method NoteCreator(c: CtorInfo, defaultCtor: Option<MemberId>, stringCtor: Option<MemberId>, longCtor: Option<MemberId>)
      returns (newDefault: Option<MemberId>, newString: Option<MemberId>, newLong: Option<MemberId>)
      ensures newDefault == if ShapeOf(c) == NoArgs then Some(c.id) else defaultCtor
      ensures newString == if ShapeOf(c) == SingleString then Some(c.id) else stringCtor
      ensures newLong == if ShapeOf(c) == SingleLong then Some(c.id) else longCtor
    {
      newDefault, newString, newLong := defaultCtor, stringCtor, longCtor;
      var argTypes := c.params;
      if |argTypes| == 0 {
        newDefault := Some(c.id);
      } else if |argTypes| == 1 {
        var argType := argTypes[0];
        if argType == StringParam {
          newString := Some(c.id);
        } else if argType == BoxedLongParam || argType == PrimitiveLongParam {
          newLong := Some(c.id);
        }
      }
    }

    /** `_propBuilder`: the builder under `name`, created and stored when missing. */
    method PropBuilderFor(name: string) returns (b: PropBuilder)
      modifies this
      ensures props == if name in old(props) then old(props) else old(props)[name := EmptyBuilder(name)]
      ensures b == props[name] && toIgnore == old(toIgnore)
    {
      if name in props {
        b := props[name];
      } else {
        b := PropBuilder(name, None, None, None);
        props := props[name := b];
      }
    }

    /** `_propBuilder(c.key).<slot> = c.acc`. */
    method FileInto(c: Candidate)
      modifies this
      ensures props == FileCandidate(old(props), c) && toIgnore == old(toIgnore)
    {
      var b := PropBuilderFor(c.key);
      match c.slot
      case FieldSlot => props := props[c.key := b.(field := Some(c.acc))];
      case GetterSlot => props := props[c.key := b.(getter := Some(c.acc))];
      case SetterSlot => props := props[c.key := b.(setter := Some(c.acc))];
    }

    /** `_addIgnoral`. */
    method AddIgnoral(name: string)
      modifies this
      ensures toIgnore == Pruning.AddIgnoral(old(toIgnore), name) && props == old(props)
    {
      if toIgnore.Some? {
        toIgnore := Some(toIgnore.value + {name});
      }
    }

    /** `_findFields`: every declared field except enum constants and synthetic ones
        sets the field slot of the builder under its own name. */
    method FindFields()
      modifies this
      ensures props == FileAll(old(props), FieldCandidates(pojoType.fields))
      ensures toIgnore == old(toIgnore)
    {
      var fields := pojoType.fields;
      for i := 0 to |fields|
        invariant props == FileAll(old(props), FieldCandidates(fields[..i]))
        invariant toIgnore == old(toIgnore)
      {
        var f := fields[i];
        assert fields[..i + 1][..i] == fields[..i];
        assert FieldCandidates(fields[..i + 1]) == FieldCandidates(fields[..i]) + AsList(FieldCandidate(f));
        FileAllSnoc(old(props), FieldCandidates(fields[..i]), FieldCandidate(f));
        if f.isEnumConstant || f.isSynthetic {
          assert FieldCandidate(f).None?;
          continue;
        }
        var acc := FieldAccessor(f);
        assert FieldCandidate(f) == Some(Candidate(f.name, FieldSlot, acc));
        FileInto(Candidate(f.name, FieldSlot, acc));
      }
      assert fields[..|fields|] == fields;
    }

    /** The accessor `_findFields` makes for one field, chosen by its markers. */
    method FieldAccessor(f: FieldInfo) returns (acc: Accessor)
      ensures acc == SignalledAccessor(f.name, None, f.id, f.signals, IsFieldVisible(f))
      ensures f.signals.ignore ==> acc.isToIgnore && !acc.isVisible
      ensures !f.signals.ignore && f.signals.explicitName.None? ==> acc.isVisible == IsFieldVisible(f)
    {
      var implName := f.name;
      if f.signals.ignore {
        acc := CreateIgnorable(implName, f.id);
      } else {
        var explName := f.signals.explicitName;
        if explName.Some? {
          if explName.value == "" {
            acc := CreateVisible(implName, f.id);
          } else {
            acc := CreateExplicit(explName.value, f.id);
          }
        } else {
          acc := CreateImplicit(explName, f.id, IsFieldVisible(f));
        }
      }
    }

    /** `_findMethods()`: from the introspected type upwards. */
    method FindMethods()
      modifies this
      ensures props == FileAll(old(props), MethodCandidates(Some(pojoType)))
      ensures toIgnore == old(toIgnore)
    {
      FindMethodsIn(Some(pojoType));
    }

    /** `_findMethods(currType)`: superclasses first, then the declared methods that
        are neither static, synthetic nor bridges, by parameter count. */
    method FindMethodsIn(currType: Option<TypeInfo>)
      modifies this
      ensures props == FileAll(old(props), MethodCandidates(currType))
      ensures toIgnore == old(toIgnore)
      decreases currType
    {
      if currType.None? || currType.value.isObject {
        return;
      }
      FindMethodsIn(currType.value.superclass);
      FindDeclaredMethods(currType.value.methods);
      assert MethodCandidates(currType) ==
        MethodCandidates(currType.value.superclass) + DeclaredMethodCandidates(currType.value.methods);
      FileAllAppend(old(props), MethodCandidates(currType.value.superclass), DeclaredMethodCandidates(currType.value.methods));
    }

    /** The loop of `_findMethods(currType)` over one class's declared methods. */
    method FindDeclaredMethods(methods: seq<MethodInfo>)
      modifies this
      ensures props == FileAll(old(props), DeclaredMethodCandidates(methods))
      ensures toIgnore == old(toIgnore)
    {
      for i := 0 to |methods|
        invariant props == FileAll(old(props), DeclaredMethodCandidates(methods[..i]))
        invariant toIgnore == old(toIgnore)
      {
        var m := methods[i];
        assert methods[..i + 1][..i] == methods[..i];
        assert methods[..i + 1][i] == m;
        assert DeclaredMethodCandidates(methods[..i + 1]) ==
          DeclaredMethodCandidates(methods[..i]) + AsList(MethodCandidate(m));
        FileAllSnoc(old(props), DeclaredMethodCandidates(methods[..i]), MethodCandidate(m));
        if m.isStatic || m.isSynthetic || m.isBridge {
          assert MethodCandidate(m).None?;
          continue;
        }
        if m.paramCount == 0 {
          assert MethodCandidate(m) == GetterCandidate(m);
          CheckGetterMethod(m);
        } else if m.paramCount == 1 {
          assert MethodCandidate(m) == SetterCandidate(m);
          CheckSetterMethod(m);
        } else {
          assert MethodCandidate(m).None?;
        }
      }
      assert methods[..|methods|] == methods;
    }

    /** `_checkGetterMethod`. */
    method CheckGetterMethod(m: MethodInfo)
      modifies this
      ensures props == if GetterCandidate(m).None? then old(props) else FileCandidate(old(props), GetterCandidate(m).value)
      ensures toIgnore == old(toIgnore)
    {
      if m.returnsBoxedVoid {
        return;
      }
      var name0 := m.name;
      var implName: Option<string> := None;
      if StartsWith(name0, "get") {
        if |name0| > 3 {
          implName := Some(Decap(name0[3..]));
        }
      } else if StartsWith(name0, "is") {
        if |name0| > 2 {
          implName := Some(Decap(name0[2..]));
        }
      }
      assert implName == GetterImplName(name0);
      var key: string;
      var acc: Accessor;
      if implName.None? {
        var explName := m.signals.explicitName;
        if explName.None? {
          return;
        }
        key := name0;
        if m.signals.ignore {
          acc := CreateIgnorable(key, m.id);
        } else if explName.value == "" {
          acc := CreateVisible(key, m.id);
        } else {
          acc := CreateExplicit(explName.value, m.id);
        }
      } else {
        key := implName.value;
        if m.signals.ignore {
          acc := CreateIgnorable(key, m.id);
        } else {
          var explName := m.signals.explicitName;
          if explName.None? {
            acc := CreateImplicit(Some(key), m.id, IsGetterVisible(m));
          } else if explName.value == "" {
            acc := CreateVisible(key, m.id);
          } else {
            acc := CreateExplicit(explName.value, m.id);
          }
        }
      }
      assert GetterCandidate(m) == Some(Candidate(key, GetterSlot, acc));
      FileInto(Candidate(key, GetterSlot, acc));
    }

    /** `_checkSetterMethod`. */
    method CheckSetterMethod(m: MethodInfo)
      modifies this
      ensures props == if SetterCandidate(m).None? then old(props) else FileCandidate(old(props), SetterCandidate(m).value)
      ensures toIgnore == old(toIgnore)
    {
      var name0 := m.name;
      var implName: Option<string>;
      if StartsWith(name0, "set") && |name0| > 3 {
        implName := Some(Decap(name0[3..]));
      } else {
        implName := None;
      }
      assert implName == SetterImplName(name0);
      var key: string;
      var acc: Accessor;
      if implName.None? {
        var explName := m.signals.explicitName;
        if explName.None? {
          return;
        }
        key := name0;
        if m.signals.ignore {
          acc := CreateIgnorable(key, m.id);
        } else if explName.value == "" {
          acc := CreateVisible(key, m.id);
        } else {
          acc := CreateExplicit(explName.value, m.id);
        }
      } else {
        key := implName.value;
        if m.signals.ignore {
          acc := CreateIgnorable(key, m.id);
        } else {
          var explName := m.signals.explicitName;
          if explName.None? {
            acc := CreateImplicit(Some(key), m.id, IsSetterVisible(m));
          } else if explName.value == "" {
            acc := CreateVisible(key, m.id);
          } else {
            acc := CreateExplicit(explName.value, m.id);
          }
        }
      }
      assert SetterCandidate(m) == Some(Candidate(key, SetterSlot, acc));
      FileInto(Candidate(key, SetterSlot, acc));
    }

    /** `_pruneReadProperties`: the first pass visits the entries in the map's iteration
        order (returned as `order`), the second applies the renames in the order they
        were collected, and the result lists the builders sorted by name. */
    method PruneReadProperties() returns (result: seq<Prop>, ghost order: seq<string>)
      requires AllBuildersConsistent(props)
      modifies this
      ensures Distinct(order) && forall k :: k in order <==> k in old(props)
      ensures (result, toIgnore) == Pruning.PruneReadProperties(old(props), order, forSerialization, old(toIgnore))
      ensures var st := PrunePass(old(props), order, forSerialization, old(toIgnore));
        props == ApplyRenames(st.props, st.renamed)
    {
      ghost var props0 := props;
      ghost var ign0 := toIgnore;
      var remaining := props.Keys;
      var renamed: seq<PropBuilder> := [];
      order := [];
      while remaining != {}
        invariant remaining <= props0.Keys
        invariant Distinct(order)
        invariant forall k :: k in order <==> k in props0 && k !in remaining
        invariant PruneState(props, renamed, toIgnore) == PrunePass(props0, order, forSerialization, ign0)
        decreases remaining
      {
        var key :| key in remaining;
        remaining := remaining - {key};
        assert key in props && props[key] == props0[key];
        ghost var before := PruneState(props, renamed, toIgnore);
        assert Distinct(order + [key]);
        assert (order + [key])[..|order|] == order;
        order := order + [key];
        assert PrunePass(props0, order, forSerialization, ign0) == PruneStep(before, key, forSerialization);
        PruneStepAppends(before, key, forSerialization);
        var rename := PruneEntry(key);
        if rename.Some? {
          renamed := renamed + [rename.value];
        }
      }
      ApplyRenamesInPlace(renamed);
      result := SortedProperties();
    }

    /** The body of the first loop of `_pruneReadProperties` for the entry under `key`;
        a builder to be renamed is removed from the map and returned. */
    method PruneEntry(key: string) returns (rename: Option<PropBuilder>)
      requires key in props && props[key].AllConsistent()
      modifies this
      ensures var x := PruneStep(PruneState(old(props), [], old(toIgnore)), key, forSerialization);
        props == x.props && toIgnore == x.toIgnore && x.renamed == if rename.None? then [] else [rename.value]
    {
      var prop := props[key];
      ghost var v := Judge(prop, forSerialization);
      rename := None;
      if !prop.AnyVisible() {
        assert v == Drop(false);
        props := props - {key};
        return;
      }
      if prop.AnyIgnorals() {
        if !prop.AnyExplicit() {
          assert v == Drop(true);
          props := props - {key};
          AddIgnoral(prop.name);
        } else {
          var cleaned := prop.RemoveIgnored();
          assert v == Keep(cleaned, !cleaned.CouldDeserialize());
          props := props[key := cleaned];
          if !cleaned.CouldDeserialize() {
            AddIgnoral(prop.name);
          }
        }
        return;
      }
      var visible := prop.RemoveNonVisible();
      props := props[key := visible];
      var explName := visible.FindPrimaryExplicitName(forSerialization);
      if explName.Some? {
        assert v == Rename(visible.WithName(explName.value));
        props := props - {key};
        assert props == old(props) - {key};
        rename := Some(visible.WithName(explName.value));
      } else {
        assert v == Keep(visible, false);
      }
    }

    /** The second loop of `_pruneReadProperties`: each renamed builder goes under its
        new name, merged with the builder already there. */
    method ApplyRenamesInPlace(renamed: seq<PropBuilder>)
      modifies this
      ensures props == ApplyRenames(old(props), renamed) && toIgnore == old(toIgnore)
    {
      for i := 0 to |renamed|
        invariant props == ApplyRenames(old(props), renamed[..i])
        invariant toIgnore == old(toIgnore)
      {
        assert renamed[..i + 1][..i] == renamed[..i];
        var prop := renamed[i];
        assert renamed[..i + 1][i] == prop;
        assert ApplyRenames(old(props), renamed[..i + 1]) == ApplyRename(ApplyRenames(old(props), renamed[..i]), prop);
        if prop.name !in props {
          props := props[prop.name := prop];
          continue;
        }
        var orig := props[prop.name];
        var merged := Merge(orig, prop);
        props := props[prop.name := merged];
      }
      assert renamed[..|renamed|] == renamed;
    }

    /** The end of `_pruneReadProperties`: the builders sorted by name, as entries. */
    method SortedProperties() returns (result: seq<Prop>)
      ensures result == SortedProps(props)
    {
      var sorted := SortNames(props.Keys);
      result := [];
      for i := 0 to |sorted|
        invariant |result| == i
        invariant forall j :: 0 <= j < i ==> sorted[j] in props && result[j] == props[sorted[j]].AsProperty()
      {
        assert sorted[i] in props;
        result := result + [props[sorted[i]].AsProperty()];
      }
    }
  }
}
