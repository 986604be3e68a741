/** Accessor candidates and per-name property builders of the annotation-based
    introspector (`APropAccessor`, `APropBuilder`), and the property entries
    (`POJODefinition.Prop`) they turn into. */
module PropBuilders {
  import opened Wrappers

  /** The identity of a reflected field, method or constructor. */
  type MemberId = nat

  /** One member seen as a way to read or write a property, with the signals found on it.
      `name` is null (None) for implicit field accessors. */
  datatype Accessor = Accessor(
    name: Option<string>,
    member: MemberId,
    isExplicit: bool,
    isNameExplicit: bool,
    isToIgnore: bool,
    isVisible: bool)

  /** The flag combinations the four factories can produce. */
  predicate Consistent(a: Accessor)
  {
    && (a.isNameExplicit ==> a.isExplicit && a.name.Some?)
    && (a.isToIgnore ==> !a.isVisible && !a.isExplicit)
  }

  /** An ignore marker was seen; nothing else matters. */
  function CreateIgnorable(name: string, m: MemberId): (a: Accessor)
    ensures Consistent(a) && a.isToIgnore && !a.isVisible && !a.isExplicit
    ensures a.name == Some(name) && a.member == m
  {
    Accessor(Some(name), m, false, false, true, false)
  }

  /** No relevant annotation: visibility comes from the member's modifiers. */
  function CreateImplicit(name: Option<string>, m: MemberId, visible: bool): (a: Accessor)
    ensures Consistent(a) && !a.isExplicit && !a.isToIgnore && a.isVisible == visible
    ensures a.name == name && a.member == m
  {
    Accessor(name, m, false, false, false, visible)
  }

  /** An explicit-inclusion marker with an empty name. */
  function CreateVisible(name: string, m: MemberId): (a: Accessor)
    ensures Consistent(a) && a.isExplicit && !a.isNameExplicit && !a.isToIgnore && a.isVisible
    ensures a.name == Some(name) && a.member == m
  {
    Accessor(Some(name), m, true, false, false, true)
  }

  /** An explicit-inclusion marker carrying a non-empty name. */
  function CreateExplicit(name: string, m: MemberId): (a: Accessor)
    ensures Consistent(a) && a.isNameExplicit && !a.isToIgnore && a.isVisible
    ensures a.name == Some(name) && a.member == m
  {
    Accessor(Some(name), m, true, true, false, true)
  }

  datatype Slot = FieldSlot | GetterSlot | SetterSlot

  /** A resolved property entry: the members that back it, by role. */
  datatype Prop = Prop(name: string, field: Option<MemberId>, setter: Option<MemberId>, getter: Option<MemberId>)

  function MemberOf(a: Option<Accessor>): (r: Option<MemberId>)
    ensures r.Some? <==> a.Some?
  {
    if a.None? then None else Some(a.value.member)
  }

  predicate IsIgnored(a: Option<Accessor>)
  {
    a.Some? && a.value.isToIgnore
  }

  predicate IsVisible(a: Option<Accessor>)
  {
    a.Some? && a.value.isVisible
  }

  predicate IsExplicit(a: Option<Accessor>)
  {
    a.Some? && a.value.isExplicit
  }

  predicate IsNameExplicit(a: Option<Accessor>)
  {
    a.Some? && a.value.isNameExplicit
  }

  /** The accessors gathered under one property name, at most one per slot. */
  datatype PropBuilder = PropBuilder(
    name: string,
    field: Option<Accessor>,
    getter: Option<Accessor>,
    setter: Option<Accessor>)
  {
    function Get(s: Slot): Option<Accessor>
    {
      match s
      case FieldSlot => field
      case GetterSlot => getter
      case SetterSlot => setter
    }

    /** The builder with slot `s` set to `a`. */
    function With(s: Slot, a: Option<Accessor>): (r: PropBuilder)
      ensures r.name == name && r.Get(s) == a
      ensures forall t :: t != s ==> r.Get(t) == Get(t)
    {
      match s
      case FieldSlot => this.(field := a)
      case GetterSlot => this.(getter := a)
      case SetterSlot => this.(setter := a)
    }

    /** `anyVisible`: some slot holds a visible accessor. */
    function AnyVisible(): (r: bool)
      ensures r <==> exists s :: IsVisible(Get(s))
    {
      assert Get(FieldSlot) == field && Get(GetterSlot) == getter && Get(SetterSlot) == setter;
      IsVisible(field) || IsVisible(getter) || IsVisible(setter)
    }

    /** `anyExplicit`: some slot holds an explicitly marked accessor. */
    function AnyExplicit(): (r: bool)
      ensures r <==> exists s :: IsExplicit(Get(s))
    {
      assert Get(FieldSlot) == field && Get(GetterSlot) == getter && Get(SetterSlot) == setter;
      IsExplicit(field) || IsExplicit(getter) || IsExplicit(setter)
    }

    /** `anyIgnorals`: some slot holds an accessor marked to be ignored. */
    function AnyIgnorals(): (r: bool)
      ensures r <==> exists s :: IsIgnored(Get(s))
    {
      assert Get(FieldSlot) == field && Get(GetterSlot) == getter && Get(SetterSlot) == setter;
      IsIgnored(field) || IsIgnored(getter) || IsIgnored(setter)
    }

    /** `couldDeserialize`: there is a field or a setter to write the value through. */
    function CouldDeserialize(): (r: bool)
      ensures r <==> Get(FieldSlot).Some? || Get(SetterSlot).Some?
      ensures r ==> HasAccessor()
    {
      field.Some? || setter.Some?
    }

    predicate HasAccessor()
    {
      field.Some? || getter.Some? || setter.Some?
    }

    /** Every accessor present came from one of the factories. */
    predicate AllConsistent()
    {
      forall s :: Get(s).Some? ==> Consistent(Get(s).value)
    }

    /** `removeIgnored`: clear exactly the slots whose accessor is to be ignored. */
    function RemoveIgnored(): (r: PropBuilder)
      ensures r.name == name && !r.AnyIgnorals()
      ensures forall s :: r.Get(s) == (if IsIgnored(Get(s)) then None else Get(s))
      ensures AllConsistent() ==> r.AllConsistent()
    {
      PropBuilder(name,
        if IsIgnored(field) then None else field,
        if IsIgnored(getter) then None else getter,
        if IsIgnored(setter) then None else setter)
    }

    /** `removeNonVisible`: clear exactly the slots whose accessor is not visible. */
    function RemoveNonVisible(): (r: PropBuilder)
      ensures r.name == name
      ensures forall s :: r.Get(s) == (if IsVisible(Get(s)) then Get(s) else None)
      ensures AllConsistent() ==> r.AllConsistent()
    {
      PropBuilder(name,
        if IsVisible(field) then field else None,
        if IsVisible(getter) then getter else None,
        if IsVisible(setter) then setter else None)
    }

    /** `findPrimaryExplicitName`: the first explicit name among setter, getter, field
        (deserialization) or getter, setter, field (serialization). */
    function FindPrimaryExplicitName(forSer: bool): (r: Option<string>)
      requires AllConsistent()
      ensures r.Some? <==> IsNameExplicit(field) || IsNameExplicit(getter) || IsNameExplicit(setter)
      ensures r.Some? ==> exists s :: IsNameExplicit(Get(s)) && Get(s).value.name == r
      ensures forSer && IsNameExplicit(getter) ==> r == getter.value.name
      ensures forSer && !IsNameExplicit(getter) && IsNameExplicit(setter) ==> r == setter.value.name
      ensures forSer && !IsNameExplicit(getter) && !IsNameExplicit(setter) ==>
        r == if IsNameExplicit(field) then field.value.name else None
      ensures !forSer && IsNameExplicit(setter) ==> r == setter.value.name
      ensures !forSer && !IsNameExplicit(setter) && IsNameExplicit(getter) ==> r == getter.value.name
      ensures !forSer && !IsNameExplicit(setter) && !IsNameExplicit(getter) ==>
        r == if IsNameExplicit(field) then field.value.name else None
    {
      assert Get(FieldSlot) == field && Get(GetterSlot) == getter && Get(SetterSlot) == setter;
      if forSer then FirstExplicit(getter, setter, field)
      else FirstExplicit(setter, getter, field)
    }

    /** `withName`: the same accessors under a new name. */
    function WithName(newName: string): (r: PropBuilder)
      ensures r.name == newName && forall s :: r.Get(s) == Get(s)
    {
      this.(name := newName)
    }

    /** `asProperty`: the member behind each slot, in the order name, field, setter, getter. */
    function AsProperty(): (p: Prop)
      ensures p.name == name
      ensures p.field == MemberOf(field) && p.setter == MemberOf(setter) && p.getter == MemberOf(getter)
    {
      Prop(name, MemberOf(field), MemberOf(setter), MemberOf(getter))
    }
  }

  /** Filtering relates to the summaries: the visible accessors are all gone
      exactly when none was visible, and dropping ignored accessors changes
      the builder exactly when one was to be ignored. */
  lemma FiltersAgreeWithSummaries(b: PropBuilder)
    ensures b.AnyVisible() <==> b.RemoveNonVisible().HasAccessor()
    ensures b.AnyIgnorals() <==> b.RemoveIgnored() != b
  {
    var v := b.RemoveNonVisible();
    assert v.Get(FieldSlot) == v.field && v.Get(GetterSlot) == v.getter && v.Get(SetterSlot) == v.setter;
    var g := b.RemoveIgnored();
    if b.AnyIgnorals() {
      var s :| IsIgnored(b.Get(s));
      assert g.Get(s) != b.Get(s);
    }
  }

  function EmptyBuilder(name: string): (b: PropBuilder)
    ensures b.name == name && forall s :: b.Get(s).None?
  {
    PropBuilder(name, None, None, None)
  }

  function FirstExplicit(a1: Option<Accessor>, a2: Option<Accessor>, a3: Option<Accessor>): (r: Option<string>)
    requires a1.Some? ==> Consistent(a1.value)
    requires a2.Some? ==> Consistent(a2.value)
    requires a3.Some? ==> Consistent(a3.value)
    ensures r.Some? <==> IsNameExplicit(a1) || IsNameExplicit(a2) || IsNameExplicit(a3)
    ensures IsNameExplicit(a1) ==> r == a1.value.name
    ensures !IsNameExplicit(a1) && IsNameExplicit(a2) ==> r == a2.value.name
    ensures !IsNameExplicit(a1) && !IsNameExplicit(a2) && IsNameExplicit(a3) ==> r == a3.value.name
  {
    if IsNameExplicit(a1) then a1.value.name
    else if IsNameExplicit(a2) then a2.value.name
    else if IsNameExplicit(a3) then a3.value.name
    else None
  }

  /** `_merge`: one slot of two colliding builders. A missing side yields the other;
      otherwise the name-explicit accessor wins, then the explicit one, then the first. */
  function MergeSlot(a1: Option<Accessor>, a2: Option<Accessor>): (r: Option<Accessor>)
    ensures r == a1 || r == a2
    ensures r.None? <==> a1.None? && a2.None?
  {
    if a1.None? then a2
    else if a2.None? then a1
    else if a1.value.isNameExplicit then a1
    else if a2.value.isNameExplicit then a2
    else if a1.value.isExplicit then a1
    else if a2.value.isExplicit then a2
    else a1
  }

  /** How strongly an accessor claims its property: 2 for an explicit name, 1 for an
      explicit marker, 0 otherwise. */
  function ClaimRank(a: Accessor): nat
  {
    if a.isNameExplicit then 2 else if a.isExplicit then 1 else 0
  }

  /** The merge keeps the stronger claim, and the first accessor on a tie. */
  lemma MergeSlotPrefersStrongerClaim(a1: Accessor, a2: Accessor)
    ensures MergeSlot(Some(a1), Some(a2)) == if ClaimRank(a2) > ClaimRank(a1) then Some(a2) else Some(a1)
  {
  }

  /** `merge`: slot by slot, keeping the first builder's name. */
  function Merge(b1: PropBuilder, b2: PropBuilder): (r: PropBuilder)
    ensures r.name == b1.name
    ensures forall s :: r.Get(s) == MergeSlot(b1.Get(s), b2.Get(s))
  {
    PropBuilder(b1.name,
      MergeSlot(b1.field, b2.field),
      MergeSlot(b1.getter, b2.getter),
      MergeSlot(b1.setter, b2.setter))
  }

  /** Merging never loses a role: a slot is filled iff either side filled it, with one
      of the two sides' accessors, and no ignored accessor appears that was not there. */
  lemma MergeKeepsEveryRole(b1: PropBuilder, b2: PropBuilder, s: Slot)
    ensures Merge(b1, b2).Get(s).Some? <==> b1.Get(s).Some? || b2.Get(s).Some?
    ensures Merge(b1, b2).Get(s) == b1.Get(s) || Merge(b1, b2).Get(s) == b2.Get(s)
    ensures !b1.AnyIgnorals() && !b2.AnyIgnorals() ==> !Merge(b1, b2).AnyIgnorals()
  {
    var m := Merge(b1, b2);
    assert m.field == MergeSlot(b1.field, b2.field);
    assert m.getter == MergeSlot(b1.getter, b2.getter);
    assert m.setter == MergeSlot(b1.setter, b2.setter);
  }

  /** When exactly one accessor carries an explicit name, both directions pick it. */
  lemma PrimaryNameDirectionIndependent(b: PropBuilder, s: Slot)
    requires b.AllConsistent()
    requires IsNameExplicit(b.Get(s))
    requires forall t :: t != s ==> !IsNameExplicit(b.Get(t))
    ensures b.FindPrimaryExplicitName(true) == b.FindPrimaryExplicitName(false) == b.Get(s).value.name
  {
    match s
    case FieldSlot =>
      assert !IsNameExplicit(b.getter) && !IsNameExplicit(b.setter) by {
        assert b.getter == b.Get(GetterSlot) && b.setter == b.Get(SetterSlot);
      }
    case GetterSlot =>
      assert !IsNameExplicit(b.field) && !IsNameExplicit(b.setter) by {
        assert b.field == b.Get(FieldSlot) && b.setter == b.Get(SetterSlot);
      }
    case SetterSlot =>
      assert !IsNameExplicit(b.field) && !IsNameExplicit(b.getter) by {
        assert b.field == b.Get(FieldSlot) && b.getter == b.Get(GetterSlot);
      }
  }
}
