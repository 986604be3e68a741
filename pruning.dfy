/** The pruning, renaming and ordering passes of `_pruneReadProperties`, as functions
    over the builder map. The introspector's loops are proved equal to these. */
module Pruning {
  import opened Wrappers
  import opened StringOrder
  import opened PropBuilders
  import opened MemberScan

  /** `_addIgnoral`: a no-op when no ignorable set is collected (serialization). */
  function AddIgnoral(toIgnore: Option<set<string>>, name: string): (r: Option<set<string>>)
    ensures r.None? <==> toIgnore.None?
    ensures r.Some? ==> r.value == toIgnore.value + {name}
  {
    if toIgnore.None? then None else Some(toIgnore.value + {name})
  }

  /** A builder fit for the output: some accessor left, none marked ignore, all from a factory. */
  predicate Survivor(b: PropBuilder)
  {
    b.HasAccessor() && !b.AnyIgnorals() && b.AllConsistent()
  }

  /** The builders whose name the first pass adds to the ignorable set. */
  predicate MarksIgnorable(b: PropBuilder)
  {
    b.AnyVisible() && b.AnyIgnorals() && (!b.AnyExplicit() || !b.RemoveIgnored().CouldDeserialize())
  }

  /** What the first pass does with one builder. */
  datatype Verdict =
    | Drop(ignorable: bool)
    | Keep(kept: PropBuilder, ignorable: bool)
    | Rename(renamed: PropBuilder)
  {
    predicate FlagsIgnorable()
    {
      !Rename? && ignorable
    }
  }

  /** The body of the first loop of `_pruneReadProperties` for one builder. */
  function Judge(b: PropBuilder, forSer: bool): (v: Verdict)
    requires b.AllConsistent()
    ensures v.Drop? <==> !b.AnyVisible() || (b.AnyIgnorals() && !b.AnyExplicit())
    ensures v.FlagsIgnorable() <==> MarksIgnorable(b)
    ensures v.Keep? ==> Survivor(v.kept) && v.kept.name == b.name
    ensures v.Rename? ==> Survivor(v.renamed)
    ensures v.Keep? && b.AnyIgnorals() ==>
      forall s :: v.kept.Get(s) == if IsIgnored(b.Get(s)) then None else b.Get(s)
    ensures !v.Drop? && !b.AnyIgnorals() ==>
      forall s :: Result(v).Get(s) == if IsVisible(b.Get(s)) then b.Get(s) else None
    ensures v.Keep? && !b.AnyIgnorals() ==> v.kept.FindPrimaryExplicitName(forSer).None?
    ensures v.Rename? ==> !b.AnyIgnorals() && Some(v.renamed.name) == v.renamed.FindPrimaryExplicitName(forSer)
  {
    if !b.AnyVisible() then Drop(false)
    else if b.AnyIgnorals() then
      if !b.AnyExplicit() then Drop(true)
      else
        var r := b.RemoveIgnored();
        assert r.HasAccessor() by {
          assert IsExplicit(b.Get(FieldSlot)) || IsExplicit(b.Get(GetterSlot)) || IsExplicit(b.Get(SetterSlot));
        }
        Keep(r, !r.CouldDeserialize())
    else
      var v := b.RemoveNonVisible();
      assert v.HasAccessor() by {
        assert IsVisible(b.Get(FieldSlot)) || IsVisible(b.Get(GetterSlot)) || IsVisible(b.Get(SetterSlot));
      }
      assert v.AllConsistent() by {
        forall s | v.Get(s).Some? ensures Consistent(v.Get(s).value) {
        }
      }
      match v.FindPrimaryExplicitName(forSer)
      case None => Keep(v, false)
      case Some(n) =>
        var w := v.WithName(n);
        assert w.FindPrimaryExplicitName(forSer) == v.FindPrimaryExplicitName(forSer) by {
          assert w.field == v.field && w.getter == v.getter && w.setter == v.setter;
        }
        Rename(w)
  }

  /** The builder a non-dropping verdict carries. */
  function Result(v: Verdict): PropBuilder
    requires !v.Drop?
  {
    if v.Keep? then v.kept else v.renamed
  }

  /** The state of the first pass: the builder map, the renamed builders in the order
      they were set aside, and the ignorable set (None when serializing). */
  datatype PruneState = PruneState(props: map<string, PropBuilder>, renamed: seq<PropBuilder>, toIgnore: Option<set<string>>)

  /** One iteration of the first loop, on the entry under `key`. */
  function PruneStep(st: PruneState, key: string, forSer: bool): (r: PruneState)
    requires key in st.props ==> st.props[key].AllConsistent()
    ensures key !in st.props ==> r == st
    ensures key in st.props ==> (key in r.props <==> Judge(st.props[key], forSer).Keep?)
    ensures key in r.props ==> r.props[key] == Result(Judge(st.props[key], forSer))
    ensures forall k :: k != key ==> (k in r.props <==> k in st.props)
    ensures forall k :: k != key && k in st.props ==> r.props[k] == st.props[k]
    ensures r.toIgnore.None? <==> st.toIgnore.None?
  {
    if key !in st.props then st
    else
      var b := st.props[key];
      match Judge(b, forSer)
      case Drop(ign) =>
        PruneState(st.props - {key}, st.renamed, if ign then AddIgnoral(st.toIgnore, b.name) else st.toIgnore)
      case Keep(kept, ign) =>
        PruneState(st.props[key := kept], st.renamed, if ign then AddIgnoral(st.toIgnore, b.name) else st.toIgnore)
      case Rename(w) =>
        PruneState(st.props - {key}, st.renamed + [w], st.toIgnore)
  }

  ghost predicate AllBuildersConsistent(props: map<string, PropBuilder>)
  {
    forall k :: k in props ==> props[k].AllConsistent()
  }

  /** The first loop over the entries in iteration order `order`. Entries not yet
      visited are untouched, and everything it keeps or sets aside is a survivor. */
  function PrunePass(props0: map<string, PropBuilder>, order: seq<string>, forSer: bool, ign0: Option<set<string>>): (r: PruneState)
    requires AllBuildersConsistent(props0)
    ensures r.props.Keys <= props0.Keys
    ensures AllBuildersConsistent(r.props)
    ensures forall k :: k in props0 && k !in order ==> k in r.props && r.props[k] == props0[k]
    ensures forall k :: k in r.props && k in order ==> Survivor(r.props[k]) && r.props[k].name == props0[k].name
    ensures forall i :: 0 <= i < |r.renamed| ==> Survivor(r.renamed[i])
    ensures r.toIgnore.None? <==> ign0.None?
    decreases |order|
  {
    if order == [] then PruneState(props0, [], ign0)
    else
      var prev := PrunePass(props0, order[..|order| - 1], forSer, ign0);
      var key := order[|order| - 1];
      var r := PruneStep(prev, key, forSer);
      assert forall k :: k in order <==> k in order[..|order| - 1] || k == key by {
        assert order == order[..|order| - 1] + [key];
      }
      r
  }

  /** The fate of each visited entry is its verdict: kept (with its cleaned builder)
      exactly when the verdict keeps it. */
  lemma {:induction false} PrunePassOutcome(props0: map<string, PropBuilder>, order: seq<string>, forSer: bool, ign0: Option<set<string>>, k: string)
    requires AllBuildersConsistent(props0)
    requires Distinct(order) && k in order && k in props0
    ensures var r := PrunePass(props0, order, forSer, ign0);
      var v := Judge(props0[k], forSer);
      (k in r.props <==> v.Keep?) && (v.Keep? ==> r.props[k] == v.kept)
    decreases |order|
  {
    var init := order[..|order| - 1];
    var key := order[|order| - 1];
    assert order == init + [key];
    var prev := PrunePass(props0, init, forSer, ign0);
    assert PrunePass(props0, order, forSer, ign0) == PruneStep(prev, key, forSer);
    if key != k {
      assert k in init && Distinct(init);
      PrunePassOutcome(props0, init, forSer, ign0, k);
    } else {
      DistinctLast(order);
      assert prev.props[k] == props0[k];
    }
  }

  /** A step only appends to the renamed list it is given. */
  lemma PruneStepAppends(st: PruneState, key: string, forSer: bool)
    requires key in st.props ==> st.props[key].AllConsistent()
    ensures var x := PruneStep(PruneState(st.props, [], st.toIgnore), key, forSer);
      PruneStep(st, key, forSer) == PruneState(x.props, st.renamed + x.renamed, x.toIgnore)
  {
    assert st.renamed + [] == st.renamed;
  }

  /** What one step adds to the renamed list and to the ignorable set. */
  lemma PruneStepEffects(st: PruneState, key: string, forSer: bool)
    requires key in st.props ==> st.props[key].AllConsistent()
    ensures var r := PruneStep(st, key, forSer);
      && r.renamed == st.renamed + (if key in st.props && Judge(st.props[key], forSer).Rename?
                                    then [Judge(st.props[key], forSer).renamed] else [])
      && r.toIgnore == (if key in st.props && MarksIgnorable(st.props[key])
                        then AddIgnoral(st.toIgnore, st.props[key].name) else st.toIgnore)
  {
  }

  /** The builders set aside for renaming are exactly the renaming verdicts. */
  lemma {:induction false} PrunePassRenamed(props0: map<string, PropBuilder>, order: seq<string>, forSer: bool, ign0: Option<set<string>>)
    requires AllBuildersConsistent(props0)
    requires Distinct(order)
    ensures forall b :: b in PrunePass(props0, order, forSer, ign0).renamed <==>
      exists k :: k in order && k in props0 && Judge(props0[k], forSer) == Rename(b)
    decreases |order|
  {
    if order != [] {
      var init := order[..|order| - 1];
      var key := order[|order| - 1];
      assert order == init + [key];
      assert Distinct(init);
      PrunePassRenamed(props0, init, forSer, ign0);
      var prev := PrunePass(props0, init, forSer, ign0);
      DistinctLast(order);
      assert key in prev.props <==> key in props0;
      PruneStepEffects(prev, key, forSer);
      var extra := if key in props0 && Judge(props0[key], forSer).Rename? then [Judge(props0[key], forSer).renamed] else [];
      assert PrunePass(props0, order, forSer, ign0).renamed == prev.renamed + extra;
      RenamedExtend(props0, forSer, init, key, prev.renamed, extra);
    }
  }

  /** Appending the last entry's renaming verdict, if any, to the list of the earlier
      entries' renamings. */
  lemma RenamedExtend(props0: map<string, PropBuilder>, forSer: bool, init: seq<string>, key: string,
                      before: seq<PropBuilder>, extra: seq<PropBuilder>)
    requires AllBuildersConsistent(props0)
    requires forall b :: b in before <==> exists k :: k in init && k in props0 && Judge(props0[k], forSer) == Rename(b)
    requires extra == if key in props0 && Judge(props0[key], forSer).Rename? then [Judge(props0[key], forSer).renamed] else []
    ensures forall b :: b in before + extra <==> exists k :: k in init + [key] && k in props0 && Judge(props0[k], forSer) == Rename(b)
  {
    forall b ensures b in before + extra <==> exists k :: k in init + [key] && k in props0 && Judge(props0[k], forSer) == Rename(b) {
      if b in before {
        var k :| k in init && k in props0 && Judge(props0[k], forSer) == Rename(b);
        assert k in init + [key];
      }
      if exists k :: k in init + [key] && k in props0 && Judge(props0[k], forSer) == Rename(b) {
        var k :| k in init + [key] && k in props0 && Judge(props0[k], forSer) == Rename(b);
        if k != key {
          assert k in init;
        }
      }
    }
  }

  /** The last element of a list without repeats is not among the earlier ones. */
  lemma DistinctLast(order: seq<string>)
    requires Distinct(order) && order != []
    ensures order[|order| - 1] !in order[..|order| - 1]
  {
    var init := order[..|order| - 1];
    forall i | 0 <= i < |init| ensures init[i] != order[|order| - 1] {
      assert order[i] != order[|order| - 1];
    }
  }

  /** The names the first pass makes ignorable: those of the visited builders that
      `MarksIgnorable` picks, whatever the iteration order. */
  ghost function IgnorableNames(props0: map<string, PropBuilder>, order: seq<string>): set<string>
  {
    set k | k in order && k in props0 && MarksIgnorable(props0[k]) :: props0[k].name
  }

  /** Visiting one more name adds its builder's name when that builder is marked. */
  lemma IgnorableNamesSnoc(props0: map<string, PropBuilder>, init: seq<string>, key: string)
    ensures IgnorableNames(props0, init + [key]) ==
      IgnorableNames(props0, init) + (if key in props0 && MarksIgnorable(props0[key]) then {props0[key].name} else {})
  {
    var order := init + [key];
    var added := if key in props0 && MarksIgnorable(props0[key]) then {props0[key].name} else {};
    forall x | x in IgnorableNames(props0, order) ensures x in IgnorableNames(props0, init) + added {
      var k :| k in order && k in props0 && MarksIgnorable(props0[k]) && props0[k].name == x;
      if k != key {
        assert k in init;
      }
    }
    forall x | x in IgnorableNames(props0, init) ensures x in IgnorableNames(props0, order) {
      var k :| k in init && k in props0 && MarksIgnorable(props0[k]) && props0[k].name == x;
      assert k in order;
    }
    if key in props0 && MarksIgnorable(props0[key]) {
      assert props0[key].name in IgnorableNames(props0, order);
    }
  }

  lemma {:induction false} PrunePassIgnorals(props0: map<string, PropBuilder>, order: seq<string>, forSer: bool, ign0: Option<set<string>>)
    requires AllBuildersConsistent(props0)
    requires Distinct(order)
    ensures PrunePass(props0, order, forSer, ign0).toIgnore ==
      if ign0.None? then None else Some(ign0.value + IgnorableNames(props0, order))
    decreases |order|
  {
    if order == [] {
      assert IgnorableNames(props0, order) == {};
      if ign0.Some? {
        assert ign0.value + {} == ign0.value;
      }
    } else {
      var init := order[..|order| - 1];
      var key := order[|order| - 1];
      assert order == init + [key];
      assert Distinct(init);
      PrunePassIgnorals(props0, init, forSer, ign0);
      DistinctLast(order);
      var prev := PrunePass(props0, init, forSer, ign0);
      assert key in prev.props <==> key in props0;
      PruneStepEffects(prev, key, forSer);
      assert PrunePass(props0, order, forSer, ign0) == PruneStep(prev, key, forSer);
      if key in props0 {
        assert prev.props[key] == props0[key];
      }
      var added := if key in props0 && MarksIgnorable(props0[key]) then {props0[key].name} else {};
      IgnorableNamesSnoc(props0, init, key);
      if ign0.Some? {
        assert prev.toIgnore == Some(ign0.value + IgnorableNames(props0, init));
        var r := PrunePass(props0, order, forSer, ign0);
        var x := ign0.value + IgnorableNames(props0, init);
        if key in props0 && MarksIgnorable(props0[key]) {
          assert r.toIgnore == AddIgnoral(prev.toIgnore, props0[key].name);
        } else {
          assert x + added == x;
        }
        assert r.toIgnore == Some(x + added);
        assert ign0.value + IgnorableNames(props0, order) == (ign0.value + IgnorableNames(props0, init)) + added;
      }
    }
  }

  /* ---------- second pass: renames ---------- */

  /** One iteration of the renaming loop: put the builder under its new name, merging
      with whatever builder already sits there. */
  function ApplyRename(props: map<string, PropBuilder>, b: PropBuilder): (r: map<string, PropBuilder>)
    ensures r.Keys == props.Keys + {b.name}
    ensures r[b.name] == if b.name in props then Merge(props[b.name], b) else b
    ensures forall k :: k in props && k != b.name ==> r[k] == props[k]
  {
    if b.name !in props then props[b.name := b]
    else props[b.name := Merge(props[b.name], b)]
  }

  function ApplyRenames(props: map<string, PropBuilder>, renamed: seq<PropBuilder>): (r: map<string, PropBuilder>)
    ensures props.Keys <= r.Keys
    ensures forall k :: k in props && (forall i :: 0 <= i < |renamed| ==> renamed[i].name != k) ==> r[k] == props[k]
    decreases |renamed|
  {
    if renamed == [] then props
    else ApplyRename(ApplyRenames(props, renamed[..|renamed| - 1]), renamed[|renamed| - 1])
  }

  /** Every builder is a survivor filed under its own name. */
  ghost predicate Resolved(props: map<string, PropBuilder>)
  {
    KeyedByName(props) && forall k :: k in props ==> Survivor(props[k])
  }

  lemma MergeSurvivors(b1: PropBuilder, b2: PropBuilder)
    requires Survivor(b1) && Survivor(b2)
    ensures Survivor(Merge(b1, b2))
  {
    MergeKeepsEveryRole(b1, b2, FieldSlot);
    MergeKeepsEveryRole(b1, b2, GetterSlot);
    MergeKeepsEveryRole(b1, b2, SetterSlot);
    var m := Merge(b1, b2);
    assert m.HasAccessor() by {
      assert b1.Get(FieldSlot).Some? || b1.Get(GetterSlot).Some? || b1.Get(SetterSlot).Some?;
    }
  }

  /** The renaming pass keeps the map resolved. */
  lemma {:induction false} ApplyRenamesResolved(props: map<string, PropBuilder>, renamed: seq<PropBuilder>)
    requires Resolved(props)
    requires forall i :: 0 <= i < |renamed| ==> Survivor(renamed[i])
    ensures Resolved(ApplyRenames(props, renamed))
    decreases |renamed|
  {
    if renamed != [] {
      var init := renamed[..|renamed| - 1];
      var b := renamed[|renamed| - 1];
      ApplyRenamesResolved(props, init);
      var p := ApplyRenames(props, init);
      if b.name in p {
        MergeSurvivors(p[b.name], b);
      }
    }
  }

  /** After the renaming pass a name is present iff it was already, or some renamed
      builder carries it. */
  lemma {:induction false} ApplyRenamesKeys(props: map<string, PropBuilder>, renamed: seq<PropBuilder>, n: string)
    ensures n in ApplyRenames(props, renamed) <==> n in props || exists i :: 0 <= i < |renamed| && renamed[i].name == n
    decreases |renamed|
  {
    if renamed != [] {
      var init := renamed[..|renamed| - 1];
      ApplyRenamesKeys(props, init, n);
      if exists i :: 0 <= i < |init| && init[i].name == n {
        var i :| 0 <= i < |init| && init[i].name == n;
        assert renamed[i].name == n;
      }
      if exists i :: 0 <= i < |renamed| && renamed[i].name == n {
        var i :| 0 <= i < |renamed| && renamed[i].name == n;
        if i < |init| {
          assert init[i].name == n;
        }
      }
    }
  }

  /** A name no renamed builder takes keeps its builder. */
  lemma {:induction false} ApplyRenamesUntouched(props: map<string, PropBuilder>, renamed: seq<PropBuilder>, k: string)
    requires k in props
    requires forall i :: 0 <= i < |renamed| ==> renamed[i].name != k
    ensures k in ApplyRenames(props, renamed) && ApplyRenames(props, renamed)[k] == props[k]
    decreases |renamed|
  {
    if renamed != [] {
      ApplyRenamesUntouched(props, renamed[..|renamed| - 1], k);
    }
  }

  /* ---------- output ---------- */

  function Names(ps: seq<Prop>): (r: seq<string>)
    ensures |r| == |ps| && forall i :: 0 <= i < |ps| ==> r[i] == ps[i].name
  {
    seq(|ps|, i requires 0 <= i < |ps| => ps[i].name)
  }

  /** The sorted copy of the builders turned into property entries. */
  ghost function SortedProps(props: map<string, PropBuilder>): (r: seq<Prop>)
    ensures |r| == |props|
    ensures forall i :: 0 <= i < |r| ==>
      SortedNames(props.Keys)[i] in props && r[i] == props[SortedNames(props.Keys)[i]].AsProperty()
  {
    var names := SortedNames(props.Keys);
    assert |props.Keys| == |props|;
    seq(|names|, i requires 0 <= i < |names| => props[names[i]].AsProperty())
  }

  /** A property entry backed by at least one member. */
  predicate Backed(p: Prop)
  {
    p.field.Some? || p.setter.Some? || p.getter.Some?
  }

  /** The output of a resolved map: one entry per name, in strictly ascending order of
      name, each backed by a member, each the builder filed under that name. */
  lemma SortedPropsShape(props: map<string, PropBuilder>)
    requires Resolved(props)
    ensures var r := SortedProps(props);
      && StrictlySorted(Names(r))
      && (forall n :: n in Names(r) <==> n in props)
      && (forall i :: 0 <= i < |r| ==> Backed(r[i]) && r[i] == props[r[i].name].AsProperty())
  {
    var r := SortedProps(props);
    var names := SortedNames(props.Keys);
    assert Names(r) == names;
  }

  /** All of `_pruneReadProperties`: both passes and the sort, given the order in which
      the map's iterator visits the entries; also the final ignorable set. */
  ghost function PruneReadProperties(props0: map<string, PropBuilder>, order: seq<string>, forSer: bool, ign0: Option<set<string>>): (r: (seq<Prop>, Option<set<string>>))
    requires AllBuildersConsistent(props0)
    ensures r.1.None? <==> ign0.None?
  {
    var st := PrunePass(props0, order, forSer, ign0);
    (SortedProps(ApplyRenames(st.props, st.renamed)), st.toIgnore)
  }

  /** A name is in the output of both passes iff its own builder was kept or some
      builder was renamed to it. */
  lemma OutputNames(props0: map<string, PropBuilder>, order: seq<string>, forSer: bool, ign0: Option<set<string>>, n: string)
    requires AllBuildersConsistent(props0)
    requires Distinct(order) && forall k :: k in order <==> k in props0
    ensures var st := PrunePass(props0, order, forSer, ign0);
      n in ApplyRenames(st.props, st.renamed) <==>
        (n in props0 && Judge(props0[n], forSer).Keep?) ||
        (exists k :: k in props0 && Judge(props0[k], forSer).Rename? && Judge(props0[k], forSer).renamed.name == n)
  {
    var st := PrunePass(props0, order, forSer, ign0);
    ApplyRenamesKeys(st.props, st.renamed, n);
    PrunePassRenamed(props0, order, forSer, ign0);
    if n in props0 {
      PrunePassOutcome(props0, order, forSer, ign0, n);
    }
    if exists i :: 0 <= i < |st.renamed| && st.renamed[i].name == n {
      var i :| 0 <= i < |st.renamed| && st.renamed[i].name == n;
      assert st.renamed[i] in st.renamed;
      var k :| k in order && k in props0 && Judge(props0[k], forSer) == Rename(st.renamed[i]);
    }
    if exists k :: k in props0 && Judge(props0[k], forSer).Rename? && Judge(props0[k], forSer).renamed.name == n {
      var k :| k in props0 && Judge(props0[k], forSer).Rename? && Judge(props0[k], forSer).renamed.name == n;
      var b := Judge(props0[k], forSer).renamed;
      assert Judge(props0[k], forSer) == Rename(b);
      assert b in st.renamed;
      var i :| 0 <= i < |st.renamed| && st.renamed[i] == b;
    }
  }

  /** What `_pruneReadProperties` promises for any iteration order of well-scanned
      builders: unique names in ascending order, every entry backed by a member, the
      names being exactly those of the kept builders and the rename targets, and an
      ignorable set holding exactly the marked names. */
  lemma PruneReadPropertiesContract(props0: map<string, PropBuilder>, order: seq<string>, forSer: bool, ign0: Option<set<string>>)
    requires WellScanned(props0)
    requires Distinct(order) && forall k :: k in order <==> k in props0
    ensures AllBuildersConsistent(props0)
    ensures var (out, ign) := PruneReadProperties(props0, order, forSer, ign0);
      && StrictlySorted(Names(out))
      && (forall i :: 0 <= i < |out| ==> Backed(out[i]))
      && (forall n :: n in Names(out) <==>
            (n in props0 && Judge(props0[n], forSer).Keep?) ||
            (exists k :: k in props0 && Judge(props0[k], forSer).Rename? && Judge(props0[k], forSer).renamed.name == n))
      && ign == (if ign0.None? then None else Some(ign0.value + set k | k in props0 && MarksIgnorable(props0[k])))
  {
    var st := PrunePass(props0, order, forSer, ign0);
    assert Resolved(st.props) by {
      forall k | k in st.props ensures st.props[k].name == k && Survivor(st.props[k]) {
        assert k in order;
      }
    }
    ApplyRenamesResolved(st.props, st.renamed);
    var m := ApplyRenames(st.props, st.renamed);
    SortedPropsShape(m);
    PrunePassIgnorals(props0, order, forSer, ign0);
    assert IgnorableNames(props0, order) == set k | k in props0 && MarksIgnorable(props0[k]);
    forall n {
      OutputNames(props0, order, forSer, ign0, n);
    }
  }

  /* ---------- worked cases ---------- */

  /** A member whose only accessor carries an ignore marker has nothing visible, so it
      is dropped by the first test and its name is not made ignorable. */
  lemma LoneIgnoredMemberNotIgnorable()
    ensures var b := PropBuilder("x", Some(CreateIgnorable("x", 1)), None, None);
      && Judge(b, false) == Drop(false)
      && PrunePass(map["x" := b], ["x"], false, Some({})) == PruneState(map[], [], Some({}))
  {
    var b := PropBuilder("x", Some(CreateIgnorable("x", 1)), None, None);
    assert (map["x" := b] - {"x"}) == map[];
  }

  /** An explicit name on a getter renames the whole property, field included. */
  lemma GetterNameRenamesField()
    ensures var f := CreateImplicit(None, 1, true);
      var g := CreateExplicit("y", 2);
      var st := PrunePass(map["x" := PropBuilder("x", Some(f), Some(g), None)], ["x"], false, Some({}));
      ApplyRenames(st.props, st.renamed) == map["y" := PropBuilder("y", Some(f), Some(g), None)]
  {
    var f := CreateImplicit(None, 1, true);
    var g := CreateExplicit("y", 2);
    var b := PropBuilder("x", Some(f), Some(g), None);
    assert b.FindPrimaryExplicitName(false) == Some("y");
    assert Judge(b, false) == Rename(PropBuilder("y", Some(f), Some(g), None));
    assert (map["x" := b] - {"x"}) == map[];
  }

  /** An ignored field with an explicitly included getter keeps the getter only, and
      since nothing can deserialize the name becomes ignorable. */
  lemma IgnoredFieldExplicitGetter()
    ensures var b := PropBuilder("x", Some(CreateIgnorable("x", 1)), Some(CreateVisible("x", 2)), None);
      Judge(b, false) == Keep(PropBuilder("x", None, Some(CreateVisible("x", 2)), None), true)
  {
  }

  /** A builder with an ignored accessor and an explicit one takes the ignoral branch,
      which ends the iteration early: a hidden setter is not stripped and the getter's
      explicit name does not rename the builder. */
  lemma IgnoralBranchKeepsHiddenAndName()
    ensures var getter := CreateExplicit("y", 2);
      var hidden := CreateImplicit(Some("x"), 3, false);
      var b := PropBuilder("x", Some(CreateIgnorable("x", 1)), Some(getter), Some(hidden));
      && b.RemoveIgnored().FindPrimaryExplicitName(false) == Some("y")
      && Judge(b, false) == Keep(PropBuilder("x", None, Some(getter), Some(hidden)), false)
  {
  }

  /** Two builders renamed to the same name are merged, the explicitly named accessor
      winning its slot. */
  lemma RenamedBuildersMerge()
    ensures var a := CreateExplicit("z", 1);
      var c := CreateVisible("w", 2);
      var d := CreateExplicit("z", 3);
      ApplyRenames(map[], [PropBuilder("z", Some(a), None, None), PropBuilder("z", Some(c), Some(d), None)]) ==
        map["z" := PropBuilder("z", Some(a), Some(d), None)]
  {
    var a := CreateExplicit("z", 1);
    var c := CreateVisible("w", 2);
    var d := CreateExplicit("z", 3);
    var rs := [PropBuilder("z", Some(a), None, None), PropBuilder("z", Some(c), Some(d), None)];
    assert rs[..1] == [rs[0]] && [rs[0]][..0] == [];
    var m1 := ApplyRenames(map[], rs[..1]);
    assert ApplyRenames(map[], rs[..1][..0]) == map[];
    assert m1 == ApplyRename(map[], rs[0]);
    assert m1 == map["z" := rs[0]];
    assert Merge(rs[0], rs[1]) == PropBuilder("z", Some(a), Some(d), None);
    assert ApplyRenames(map[], rs) == m1["z" := Merge(rs[0], rs[1])];
  }
}
