/** What `BeanReader` computes, as functions of its configuration and of the token
    sequence: creating the instance (default, single-String or single-long
    constructor), populating it through the matcher's dispatch table, and the
    unknown-property recovery that continues by primary name only. */
module BeanReading {
  import opened Wrappers
  import opened StringOrder
  import opened Tokens
  import opened ValueReaders
  import PropBuilders

  /** `BeanPropertyReader`: the property's primary name and the reader of its values. */
  datatype PropertyReader = PropertyReader(name: string, reader: ValueReader)

  /** The argument the instance was constructed with. */
  datatype CtorArg = NoArg | TextArg(text: string) | LongArg(value: int)

  /** A constructed bean: its constructor and argument, and the value set for each
      property so far (the last one set wins). */
  datatype Instance = Instance(ctor: PropBuilders.MemberId, arg: CtorArg, props: map<string, Value>)

  /** `read` yields Java null for a JSON null, otherwise a bean. */
  datatype Outcome = NullValue | BeanValue(bean: Instance)

  /** Why an instance could not be made: a missing constructor (an
      `IllegalStateException`), or an integer token outside the range of `long`, which
      the token layer reports as an I/O error. */
  datatype CreationError = MissingConstructor(message: string) | LongOutOfRange(value: int)

  /** The exceptions `read` and `readNext` end with. */
  datatype Failure =
    | FailedToCreate(valueType: string, causeType: string, causeMessage: string)
    | InputCoercion(value: int)
    | CannotCreate(valueType: string, tokenDesc: string)
    | Unrecognized(name: string, valueType: string, known: string)
    | UnexpectedToken(token: Option<Token>)

  const MIN_LONG: int := -0x8000_0000_0000_0000
  const MAX_LONG: int := 0x7FFF_FFFF_FFFF_FFFF

  predicate InLongRange(n: int)
  {
    MIN_LONG <= n <= MAX_LONG
  }

  /** The fields of a `BeanReader` once `initFieldMatcher` has run: `matcherNames` are
      the names the field-name matcher was built from, `fieldReaders` the array of
      readers in the same order. */
  datatype Config = Config(
    valueType: string,
    propsByName: map<string, PropertyReader>,
    aliasMapping: map<string, string>,
    ignorableNames: set<string>,
    defaultCtor: Option<PropBuilders.MemberId>,
    stringCtor: Option<PropBuilders.MemberId>,
    longCtor: Option<PropBuilders.MemberId>,
    matcherNames: seq<string>,
    fieldReaders: seq<PropertyReader>)

  /** The aliases `_mixInAliases` adds: an alias never overrides a primary name, and
      one whose target is not a property is dropped. */
  ghost function AddedAliases(props: map<string, PropertyReader>, aliases: map<string, string>): set<string>
  {
    set a | a in aliases && a !in props && aliases[a] in props
  }

  /** `_mixInAliases`: the primary names, plus each added alias bound to its target's reader. */
  function AliasTable(props: map<string, PropertyReader>, aliases: map<string, string>): (r: map<string, PropertyReader>)
    ensures r.Keys == props.Keys + AddedAliases(props, aliases)
    ensures forall k :: k in props ==> r[k] == props[k]
    ensures forall a :: a in AddedAliases(props, aliases) ==> r[a] == props[aliases[a]]
  {
    map k | k in props.Keys + (set a | a in aliases && a !in props && aliases[a] in props) ::
      if k in props then props[k] else props[aliases[k]]
  }

  /** With no aliases, the table is the primary map itself: the shortcut taken by
      `initFieldMatcher` does not change what is matched. */
  lemma AliasTableWithoutAliases(props: map<string, PropertyReader>)
    ensures AliasTable(props, map[]) == props
  {
  }

  /** The name-to-reader table the matcher is built from. */
  function ByName(c: Config): map<string, PropertyReader>
  {
    if |c.aliasMapping| == 0 then c.propsByName else AliasTable(c.propsByName, c.aliasMapping)
  }

  /** The dispatch table `initFieldMatcher` builds: each name of the table exactly once,
      with its reader at the same index. */
  ghost predicate MatcherBuilt(c: Config)
  {
    && |c.matcherNames| == |c.fieldReaders|
    && Distinct(c.matcherNames)
    && (forall n :: n in c.matcherNames <==> n in ByName(c))
    && (forall i :: 0 <= i < |c.matcherNames| ==>
          c.matcherNames[i] in ByName(c) && c.fieldReaders[i] == ByName(c)[c.matcherNames[i]])
  }

  /** Matching a field name against the built table is looking the name up in it:
      primary names and added aliases dispatch to their reader, all others are unknown. */
  lemma DispatchByName(c: Config, n: string)
    requires MatcherBuilt(c)
    ensures var ix := MatchCode(c.matcherNames, Some(FieldName(n)));
      && (ix >= 0 <==> n in ByName(c))
      && (ix >= 0 ==> c.fieldReaders[ix] == ByName(c)[n])
      && (ix < 0 ==> ix == MATCH_UNKNOWN_NAME)
  {
  }

  /* ---------- instance creation ---------- */

  /** The message of the `IllegalStateException` for a missing constructor of `kind`. */
  function MissingConstructorMessage(valueType: string, kind: string): string
  {
    "Class `" + valueType + "` does not have " + kind + " constructor to use"
  }

  /** `create()`. */
  function CreateDefault(c: Config): (r: Result<Instance, CreationError>)
    ensures r.Ok? <==> c.defaultCtor.Some?
    ensures r.Ok? ==> r.value == Instance(c.defaultCtor.value, NoArg, map[])
    ensures r.Err? ==> r.error == MissingConstructor(MissingConstructorMessage(c.valueType, "default"))
  {
    if c.defaultCtor.None? then
      Err(MissingConstructor(MissingConstructorMessage(c.valueType, "default")))
    else Ok(Instance(c.defaultCtor.value, NoArg, map[]))
  }

  /** `create(String)`. */
  function CreateFromText(c: Config, text: string): (r: Result<Instance, CreationError>)
    ensures r.Ok? <==> c.stringCtor.Some?
    ensures r.Ok? ==> r.value == Instance(c.stringCtor.value, TextArg(text), map[])
    ensures r.Err? ==> r.error == MissingConstructor(MissingConstructorMessage(c.valueType, "single-String"))
  {
    if c.stringCtor.None? then
      Err(MissingConstructor(MissingConstructorMessage(c.valueType, "single-String")))
    else Ok(Instance(c.stringCtor.value, TextArg(text), map[]))
  }

  /** `create(p.getLongValue())`: the range check of `getLongValue` comes first. */
  function CreateFromLong(c: Config, n: int): (r: Result<Instance, CreationError>)
    ensures !InLongRange(n) ==> r == Err(LongOutOfRange(n))
    ensures r.Ok? <==> InLongRange(n) && c.longCtor.Some?
    ensures r.Ok? ==> r.value == Instance(c.longCtor.value, LongArg(n), map[])
    ensures InLongRange(n) && r.Err? ==> r.error == MissingConstructor(MissingConstructorMessage(c.valueType, "single-long"))
  {
    if !InLongRange(n) then Err(LongOutOfRange(n))
    else if c.longCtor.None? then
      Err(MissingConstructor(MissingConstructorMessage(c.valueType, "single-long")))
    else Ok(Instance(c.longCtor.value, LongArg(n), map[]))
  }

  /** `_reportFailureToCreate`: an I/O error passes through unchanged, anything else is
      wrapped with the value type and the cause. */
  function ReportFailureToCreate(c: Config, e: CreationError): (f: Failure)
    ensures e.LongOutOfRange? ==> f == InputCoercion(e.value)
    ensures e.MissingConstructor? ==> f.FailedToCreate? && f.valueType == c.valueType && f.causeMessage == e.message
  {
    match e
    case MissingConstructor(m) => FailedToCreate(c.valueType, "java.lang.IllegalStateException", m)
    case LongOutOfRange(n) => InputCoercion(n)
  }

  /* ---------- reading ---------- */

  /** A result together with the cursor it leaves the parser on. */
  datatype Step<T> = Step(result: Result<T, Failure>, pos: int)

  predicate Shaped(c: Config)
  {
    |c.matcherNames| == |c.fieldReaders|
  }

  function Created(c: Config, r: Result<Instance, CreationError>, pos: int): Step<Outcome>
  {
    match r
    case Ok(b) => Step(Ok(BeanValue(b)), pos)
    case Err(e) => Step(Err(ReportFailureToCreate(c, e)), pos)
  }

  /** `read` with the cursor on the value's first token. */
  ghost function ReadAt(c: Config, ts: seq<Token>, pos: int, failOnUnknown: bool): (r: Step<Outcome>)
    requires ValidPos(ts, pos) && Shaped(c)
    ensures ValidPos(ts, r.pos) && pos <= r.pos
    ensures r.result.Ok? && r.result.value.BeanValue? && CurrentAt(ts, pos) == Some(StartObject) ==>
      CurrentAt(ts, r.pos) == Some(EndObject)
  {
    match CurrentAt(ts, pos)
    case Some(StartObject) =>
      (match CreateDefault(c)
       case Err(e) => Step(Err(ReportFailureToCreate(c, e)), pos)
       case Ok(bean) =>
         var s := ReadBeanAt(c, ts, pos, bean, failOnUnknown);
         Step(if s.result.Ok? then Ok(BeanValue(s.result.value)) else Err(s.result.error), s.pos))
    case Some(ValueNull) => Step(Ok(NullValue), pos)
    case Some(ValueString(text)) => Created(c, CreateFromText(c, text), pos)
    case Some(ValueNumberInt(n)) => Created(c, CreateFromLong(c, n), pos)
    case t => Step(Err(CannotCreate(c.valueType, TokenDesc(t))), pos)
  }

  /** `_readBean` from the cursor before the next field name: dispatch through the
      matcher until the end of the object, switching to recovery at the first unknown
      name. */
  ghost function ReadBeanAt(c: Config, ts: seq<Token>, pos: int, bean: Instance, failOnUnknown: bool): (r: Step<Instance>)
    requires ValidPos(ts, pos) && Shaped(c)
    ensures ValidPos(ts, r.pos) && pos <= r.pos
    ensures r.result.Ok? ==> CurrentAt(ts, r.pos) == Some(EndObject)
    decreases |ts| - pos
  {
    var p1 := Advance(ts, pos);
    var ix := MatchCode(c.matcherNames, CurrentAt(ts, p1));
    if ix >= 0 then
      var prop := c.fieldReaders[ix];
      var (v, p2) := prop.reader.ReadAt(ts, Advance(ts, p1));
      ReadBeanAt(c, ts, p2, bean.(props := bean.props[prop.name := v]), failOnUnknown)
    else if ix == MATCH_END_OBJECT then Step(Ok(bean), p1)
    else if ix == MATCH_UNKNOWN_NAME then ReadWithUnknownAt(c, ts, p1, bean, CurrentAt(ts, p1).value.name, failOnUnknown)
    else Step(Err(UnexpectedToken(CurrentAt(ts, p1))), p1)
  }

  /** The message part listing the known properties: primary names only, sorted,
      quoted and comma-separated. */
  ghost function KnownNames(c: Config): string
  {
    QuotedList(SortedNames(c.propsByName.Keys))
  }

  /** `handleUnknown` with the cursor on the unknown name: under the strict policy a name
      that is not ignorable fails; otherwise the value is skipped and the cursor left
      on its last token. */
  ghost function HandleUnknownAt(c: Config, ts: seq<Token>, pos: int, name: string, failOnUnknown: bool): (r: Result<int, Failure>)
    requires ValidPos(ts, pos)
    ensures r.Err? <==> failOnUnknown && name !in c.ignorableNames
    ensures r.Err? ==> r.error == Unrecognized(name, c.valueType, KnownNames(c))
    ensures r.Ok? ==> ValidPos(ts, r.value) && Advance(ts, pos) <= r.value
  {
    if failOnUnknown && name !in c.ignorableNames then
      Err(Unrecognized(name, c.valueType, KnownNames(c)))
    else
      Ok(SkipEnd(ts, Advance(ts, pos)))
  }

  /** `_readWithUnknown`: skip the unknown property, then continue by primary name. */
  ghost function ReadWithUnknownAt(c: Config, ts: seq<Token>, pos: int, bean: Instance, name: string, failOnUnknown: bool): (r: Step<Instance>)
    requires ValidPos(ts, pos)
    ensures ValidPos(ts, r.pos) && pos <= r.pos
    ensures r.result.Ok? ==> CurrentAt(ts, r.pos) == Some(EndObject)
  {
    match HandleUnknownAt(c, ts, pos, name, failOnUnknown)
    case Err(e) => Step(Err(e), pos)
    case Ok(p2) => ReadRestAt(c, ts, p2, bean, failOnUnknown)
  }

  /** The loop of `_readWithUnknown`: names are looked up in the primary map only, so an
      alias is no longer recognized once recovery has started. */
  ghost function ReadRestAt(c: Config, ts: seq<Token>, pos: int, bean: Instance, failOnUnknown: bool): (r: Step<Instance>)
    requires ValidPos(ts, pos)
    ensures ValidPos(ts, r.pos) && pos <= r.pos
    ensures r.result.Ok? ==> CurrentAt(ts, r.pos) == Some(EndObject)
    decreases |ts| - pos
  {
    var p1 := Advance(ts, pos);
    match CurrentAt(ts, p1)
    case Some(FieldName(n)) =>
      if n in c.propsByName then
        var prop := c.propsByName[n];
        var (v, p2) := prop.reader.ReadAt(ts, Advance(ts, p1));
        ReadRestAt(c, ts, p2, bean.(props := bean.props[prop.name := v]), failOnUnknown)
      else
        (match HandleUnknownAt(c, ts, p1, n, failOnUnknown)
         case Err(e) => Step(Err(e), p1)
         case Ok(p2) => ReadRestAt(c, ts, p2, bean, failOnUnknown))
    case t =>
      if t == Some(EndObject) then Step(Ok(bean), p1) else Step(Err(UnexpectedToken(t)), p1)
  }

  /* ---------- properties of reading ---------- */

  /** What the strict policy adds: a read under it ends exactly as the lenient read
      does, or fails on an unrecognized property. */
  ghost predicate StrictAgrees<T>(strict: Step<T>, lenient: Step<T>)
  {
    strict == lenient || (strict.result.Err? && strict.result.error.Unrecognized?)
  }

  lemma {:induction false} ReadRestStrictness(c: Config, ts: seq<Token>, pos: int, bean: Instance)
    requires ValidPos(ts, pos)
    ensures StrictAgrees(ReadRestAt(c, ts, pos, bean, true), ReadRestAt(c, ts, pos, bean, false))
    decreases |ts| - pos
  {
    var p1 := Advance(ts, pos);
    match CurrentAt(ts, p1)
    case Some(FieldName(n)) =>
      if n in c.propsByName {
        var prop := c.propsByName[n];
        var (v, p2) := prop.reader.ReadAt(ts, Advance(ts, p1));
        ReadRestStrictness(c, ts, p2, bean.(props := bean.props[prop.name := v]));
      } else {
        var h := HandleUnknownAt(c, ts, p1, n, true);
        if h.Ok? {
          ReadRestStrictness(c, ts, h.value, bean);
        }
      }
    case _ =>
  }

  lemma {:induction false} ReadBeanStrictness(c: Config, ts: seq<Token>, pos: int, bean: Instance)
    requires ValidPos(ts, pos) && Shaped(c)
    ensures StrictAgrees(ReadBeanAt(c, ts, pos, bean, true), ReadBeanAt(c, ts, pos, bean, false))
    decreases |ts| - pos
  {
    var p1 := Advance(ts, pos);
    var ix := MatchCode(c.matcherNames, CurrentAt(ts, p1));
    if ix >= 0 {
      var prop := c.fieldReaders[ix];
      var (v, p2) := prop.reader.ReadAt(ts, Advance(ts, p1));
      ReadBeanStrictness(c, ts, p2, bean.(props := bean.props[prop.name := v]));
    } else if ix == MATCH_UNKNOWN_NAME {
      var h := HandleUnknownAt(c, ts, p1, CurrentAt(ts, p1).value.name, true);
      if h.Ok? {
        ReadRestStrictness(c, ts, h.value, bean);
      }
    }
  }

  /** `FAIL_ON_UNKNOWN_BEAN_PROPERTY` only turns some reads into failures naming an
      unrecognized property; every other read, successful or not, ends the same way. */
  lemma StrictOnlyAddsUnrecognized(c: Config, ts: seq<Token>, pos: int)
    requires ValidPos(ts, pos) && Shaped(c)
    ensures StrictAgrees(ReadAt(c, ts, pos, true), ReadAt(c, ts, pos, false))
  {
    if CurrentAt(ts, pos) == Some(StartObject) && CreateDefault(c).Ok? {
      ReadBeanStrictness(c, ts, pos, CreateDefault(c).value);
    }
  }

  predicate NotUnrecognized<T>(s: Step<T>)
  {
    !(s.result.Err? && s.result.error.Unrecognized?)
  }

  lemma {:induction false} ReadRestLenient(c: Config, ts: seq<Token>, pos: int, bean: Instance)
    requires ValidPos(ts, pos)
    ensures NotUnrecognized(ReadRestAt(c, ts, pos, bean, false))
    decreases |ts| - pos
  {
    var p1 := Advance(ts, pos);
    match CurrentAt(ts, p1)
    case Some(FieldName(n)) =>
      if n in c.propsByName {
        var prop := c.propsByName[n];
        var (v, p2) := prop.reader.ReadAt(ts, Advance(ts, p1));
        ReadRestLenient(c, ts, p2, bean.(props := bean.props[prop.name := v]));
      } else {
        ReadRestLenient(c, ts, HandleUnknownAt(c, ts, p1, n, false).value, bean);
      }
    case _ =>
  }

  lemma {:induction false} ReadBeanLenient(c: Config, ts: seq<Token>, pos: int, bean: Instance)
    requires ValidPos(ts, pos) && Shaped(c)
    ensures NotUnrecognized(ReadBeanAt(c, ts, pos, bean, false))
    decreases |ts| - pos
  {
    var p1 := Advance(ts, pos);
    var ix := MatchCode(c.matcherNames, CurrentAt(ts, p1));
    if ix >= 0 {
      var prop := c.fieldReaders[ix];
      var (v, p2) := prop.reader.ReadAt(ts, Advance(ts, p1));
      ReadBeanLenient(c, ts, p2, bean.(props := bean.props[prop.name := v]));
    } else if ix == MATCH_UNKNOWN_NAME {
      ReadRestLenient(c, ts, HandleUnknownAt(c, ts, p1, CurrentAt(ts, p1).value.name, false).value, bean);
    }
  }

  /** Under the lenient policy no read fails because of an unknown property. */
  lemma LenientNeverUnrecognized(c: Config, ts: seq<Token>, pos: int)
    requires ValidPos(ts, pos) && Shaped(c)
    ensures NotUnrecognized(ReadAt(c, ts, pos, false))
  {
    if CurrentAt(ts, pos) == Some(StartObject) && CreateDefault(c).Ok? {
      ReadBeanLenient(c, ts, pos, CreateDefault(c).value);
    }
  }

  /** The names readers store values under: the primary names' readers. */
  ghost function ReaderNames(c: Config): set<string>
  {
    set k | k in c.propsByName :: c.propsByName[k].name
  }

  /** Populating keeps the constructor and argument and every value already set, and
      stores values only under reader names. */
  ghost predicate Populates(c: Config, bean: Instance, r: Step<Instance>)
  {
    r.result.Ok? ==>
      && r.result.value.ctor == bean.ctor
      && r.result.value.arg == bean.arg
      && bean.props.Keys <= r.result.value.props.Keys <= bean.props.Keys + ReaderNames(c)
  }

  /** Every reader of the dispatch table is a primary property's reader. */
  lemma ByNameReaders(c: Config, n: string)
    requires n in ByName(c)
    ensures ByName(c)[n].name in ReaderNames(c)
  {
    if |c.aliasMapping| == 0 {
      assert n in c.propsByName;
    } else if n in c.propsByName {
      assert ByName(c)[n] == c.propsByName[n];
    } else {
      var t := c.aliasMapping[n];
      assert t in c.propsByName && ByName(c)[n] == c.propsByName[t];
    }
  }

  lemma {:induction false} ReadRestPopulates(c: Config, ts: seq<Token>, pos: int, bean: Instance, failOnUnknown: bool)
    requires ValidPos(ts, pos)
    ensures Populates(c, bean, ReadRestAt(c, ts, pos, bean, failOnUnknown))
    decreases |ts| - pos
  {
    var p1 := Advance(ts, pos);
    match CurrentAt(ts, p1)
    case Some(FieldName(n)) =>
      if n in c.propsByName {
        var prop := c.propsByName[n];
        var (v, p2) := prop.reader.ReadAt(ts, Advance(ts, p1));
        var next := bean.(props := bean.props[prop.name := v]);
        assert prop.name in ReaderNames(c);
        ReadRestPopulates(c, ts, p2, next, failOnUnknown);
      } else {
        var h := HandleUnknownAt(c, ts, p1, n, failOnUnknown);
        if h.Ok? {
          ReadRestPopulates(c, ts, h.value, bean, failOnUnknown);
        }
      }
    case _ =>
  }

  lemma {:induction false} ReadBeanPopulates(c: Config, ts: seq<Token>, pos: int, bean: Instance, failOnUnknown: bool)
    requires ValidPos(ts, pos) && MatcherBuilt(c)
    ensures Populates(c, bean, ReadBeanAt(c, ts, pos, bean, failOnUnknown))
    decreases |ts| - pos
  {
    var p1 := Advance(ts, pos);
    var ix := MatchCode(c.matcherNames, CurrentAt(ts, p1));
    if ix >= 0 {
      var prop := c.fieldReaders[ix];
      ByNameReaders(c, c.matcherNames[ix]);
      var (v, p2) := prop.reader.ReadAt(ts, Advance(ts, p1));
      ReadBeanPopulates(c, ts, p2, bean.(props := bean.props[prop.name := v]), failOnUnknown);
    } else if ix == MATCH_UNKNOWN_NAME {
      var h := HandleUnknownAt(c, ts, p1, CurrentAt(ts, p1).value.name, failOnUnknown);
      if h.Ok? {
        ReadRestPopulates(c, ts, h.value, bean, failOnUnknown);
      }
    }
  }

  /** A bean read from an object comes from the default constructor, and its set
      properties are named by the reader's primary properties. */
  lemma ReadObjectPopulates(c: Config, ts: seq<Token>, pos: int, failOnUnknown: bool)
    requires ValidPos(ts, pos) && MatcherBuilt(c)
    requires CurrentAt(ts, pos) == Some(StartObject)
    ensures var r := ReadAt(c, ts, pos, failOnUnknown);
      r.result.Ok? ==>
        && r.result.value.BeanValue?
        && c.defaultCtor.Some?
        && r.result.value.bean.ctor == c.defaultCtor.value
        && r.result.value.bean.arg == NoArg
        && r.result.value.bean.props.Keys <= ReaderNames(c)
  {
    if CreateDefault(c).Ok? {
      ReadBeanPopulates(c, ts, pos, CreateDefault(c).value, failOnUnknown);
    }
  }

  /* ---------- reading a well-formed object ---------- */

  /** One member of a JSON object: its name and the tokens of its value. */
  datatype Member = Member(name: string, value: Value)

  /** The tokens of a run of members, each a field name followed by its value. */
  function MemberTokens(ms: seq<Member>): (r: seq<Token>)
    ensures |r| >= |ms|
    decreases |ms|
  {
    if ms == [] then [] else [FieldName(ms[0].name)] + ms[0].value + MemberTokens(ms[1..])
  }

  /** The tokens of a JSON object with members `ms`. */
  function ObjectTokens(ms: seq<Member>): (r: seq<Token>)
    ensures |r| == |MemberTokens(ms)| + 2 && r[0] == StartObject && r[|r| - 1] == EndObject
  {
    [StartObject] + MemberTokens(ms) + [EndObject]
  }

  /** Every member's value is a complete JSON value. */
  predicate WellFormedMembers(ms: seq<Member>)
    decreases |ms|
  {
    ms == [] || (IsValue(ms[0].value) && WellFormedMembers(ms[1..]))
  }

  /** The names matched before recovery (primary names and added aliases) and
      after it (primary names only). */
  function Table(c: Config, recovering: bool): map<string, PropertyReader>
  {
    if recovering then c.propsByName else ByName(c)
  }

  /** The properties a lenient read sets from an object's members, stated on the
      members rather than on tokens: a known name stores its value under its
      reader's name, a later member overriding an earlier one; the first unknown
      name is skipped and starts recovery, from which on only primary names are
      known. */
  ghost function Populated(c: Config, props: map<string, Value>, ms: seq<Member>, recovering: bool): map<string, Value>
    decreases |ms|
  {
    if ms == [] then props
    else
      var t := Table(c, recovering);
      if ms[0].name in t then Populated(c, props[t[ms[0].name].name := ms[0].value], ms[1..], recovering)
      else Populated(c, props, ms[1..], true)
  }

  /** The value `v` occupies the tokens from index `i` on. */
  predicate ValueAt(ts: seq<Token>, i: int, v: Value)
  {
    0 <= i && i + |v| <= |ts| && ts[i..i + |v|] == v
  }

  /** The members `ms` start at index `at`, each a field name followed by its
      value, and the object's closing token follows them. */
  predicate MembersAt(ts: seq<Token>, at: int, ms: seq<Member>)
    decreases |ms|
  {
    && 0 <= at < |ts|
    && if ms == [] then ts[at] == EndObject
       else
         && ts[at] == FieldName(ms[0].name)
         && ValueAt(ts, at + 1, ms[0].value)
         && MembersAt(ts, at + 1 + |ms[0].value|, ms[1..])
  }

  /** The first member's tokens, and where the rest begin. */
  lemma MemberTokensHead(ts: seq<Token>, at: int, ms: seq<Member>, after: int)
    requires ms != [] && MembersAt(ts, at, ms)
    requires after == at + 1 + |ms[0].value|
    ensures after < |ts|
    ensures ts[at] == FieldName(ms[0].name)
    ensures ts[at + 1..after] == ms[0].value
    ensures MembersAt(ts, after, ms[1..])
    ensures after + |MemberTokens(ms[1..])| == at + |MemberTokens(ms)|
  {
    assert MemberTokens(ms) == [FieldName(ms[0].name)] + ms[0].value + MemberTokens(ms[1..]);
  }

  /** The tokens of the members, followed by the closing token, are the members
      in place. */
  lemma {:induction false} MemberTokensAt(ts: seq<Token>, at: int, ms: seq<Member>)
    requires 0 <= at && at + |MemberTokens(ms)| < |ts|
    requires ts[at..at + |MemberTokens(ms)|] == MemberTokens(ms)
    requires ts[at + |MemberTokens(ms)|] == EndObject
    ensures MembersAt(ts, at, ms)
    decreases |ms|
  {
    if ms != [] {
      var head, v, r := [FieldName(ms[0].name)], ms[0].value, MemberTokens(ms[1..]);
      assert MemberTokens(ms) == head + v + r;
      SliceSplit(ts, at, head + v, r);
      SliceSplit(ts, at, head, v);
      assert ts[at] == ts[at..at + 1][0];
      MemberTokensAt(ts, at + 1 + |v|, ms[1..]);
    }
  }

  /** A run of tokens that spells `x + y` spells `x`, then `y`. */
  lemma SliceSplit(ts: seq<Token>, a: int, x: seq<Token>, y: seq<Token>)
    requires 0 <= a && a + |x| + |y| <= |ts| && ts[a..a + |x| + |y|] == x + y
    ensures ts[a..a + |x|] == x && ts[a + |x|..a + |x| + |y|] == y
  {
    var w := ts[a..a + |x| + |y|];
    assert ts[a..a + |x|] == w[..|x|] && w[..|x|] == (x + y)[..|x|];
    assert ts[a + |x|..a + |x| + |y|] == w[|x|..] && w[|x|..] == (x + y)[|x|..];
  }

  /** The first member is a complete value, and so are the rest. */
  lemma MembersTail(ms: seq<Member>)
    requires WellFormedMembers(ms) && ms != []
    ensures IsValue(ms[0].value) && WellFormedMembers(ms[1..])
  {
  }

  /** The first member a strict read rejects: a name outside the table in force
      at that point that is not ignorable. An ignorable name, like any unknown
      name, is skipped and starts recovery. */
  ghost function FirstRejected(c: Config, ms: seq<Member>, recovering: bool): (r: Option<string>)
    ensures r.Some? ==> r.value !in c.ignorableNames && r.value !in c.propsByName
    ensures r.Some? ==> exists i :: 0 <= i < |ms| && ms[i].name == r.value
    decreases |ms|
  {
    if ms == [] then None
    else if ms[0].name in Table(c, recovering) then
      var r := FirstRejected(c, ms[1..], recovering);
      assert r.Some? ==> exists i :: 1 <= i < |ms| && ms[i].name == r.value by {
        if r.Some? {
          var i :| 0 <= i < |ms[1..]| && ms[1..][i].name == r.value;
          assert ms[i + 1] == ms[1..][i];
        }
      }
      r
    else if ms[0].name in c.ignorableNames then
      var r := FirstRejected(c, ms[1..], true);
      assert r.Some? ==> exists i :: 1 <= i < |ms| && ms[i].name == r.value by {
        if r.Some? {
          var i :| 0 <= i < |ms[1..]| && ms[1..][i].name == r.value;
          assert ms[i + 1] == ms[1..][i];
        }
      }
      r
    else Some(ms[0].name)
  }

  /** Members whose names are all in the table in force are never rejected. */
  lemma {:induction false} KnownNamesAccepted(c: Config, ms: seq<Member>, recovering: bool)
    requires forall i :: 0 <= i < |ms| ==> ms[i].name in Table(c, recovering)
    ensures FirstRejected(c, ms, recovering) == None
    decreases |ms|
  {
    if ms != [] {
      assert forall i :: 0 <= i < |ms[1..]| ==> ms[1..][i] == ms[i + 1];
      KnownNamesAccepted(c, ms[1..], recovering);
    }
  }

  /** After recovery, a read of well-formed members starting at index `at` sets
      what `Populated` says and stops on the object's closing token; under the
      strict policy this needs every name outside the primary map to be
      ignorable. */
  lemma {:induction false} ReadRestMembers(c: Config, ts: seq<Token>, at: int, bean: Instance, ms: seq<Member>, failOnUnknown: bool)
    requires WellFormedMembers(ms)
    requires failOnUnknown ==> FirstRejected(c, ms, true).None?
    requires 1 <= at && MembersAt(ts, at, ms)
    ensures ReadRestAt(c, ts, at - 1, bean, failOnUnknown) ==
      Step(Ok(bean.(props := Populated(c, bean.props, ms, true))), at + |MemberTokens(ms)|)
    decreases |ms|
  {
    if ms != [] {
      var m := ms[0];
      var after := at + 1 + |m.value|;
      if m.name in c.propsByName {
        HeadRead(c.propsByName[m.name].reader, ts, at, ms, after);
        ReadRestKnownMember(c, ts, at, bean, m.name, m.value, failOnUnknown, after);
        ReadRestMembers(c, ts, after, bean.(props := bean.props[c.propsByName[m.name].name := m.value]), ms[1..], failOnUnknown);
      } else {
        HeadSkip(ts, at, ms, after);
        ReadRestSkippedMember(c, ts, at, bean, m.name, failOnUnknown, after);
        ReadRestMembers(c, ts, after, bean, ms[1..], failOnUnknown);
      }
    }
  }

  /** A primary name at index `at` during recovery: its reader's value, ending
      before `after`, is stored. */
  lemma ReadRestKnownMember(c: Config, ts: seq<Token>, at: int, bean: Instance, n: string, v: Value, failOnUnknown: bool, after: int)
    requires 1 <= at && at < after <= |ts| && ts[at] == FieldName(n)
    requires n in c.propsByName && c.propsByName[n].reader.ReadAt(ts, at + 1) == (v, after - 1)
    ensures ReadRestAt(c, ts, at - 1, bean, failOnUnknown) ==
      ReadRestAt(c, ts, after - 1, bean.(props := bean.props[c.propsByName[n].name := v]), failOnUnknown)
  {
    assert Advance(ts, at - 1) == at && Advance(ts, at) == at + 1;
    ReadRestKnownStep(c, ts, at - 1, bean, failOnUnknown, n, v, after - 1);
  }

  /** A tolerated name without a property at index `at` during recovery: its
      value, ending before `after`, is skipped. */
  lemma ReadRestSkippedMember(c: Config, ts: seq<Token>, at: int, bean: Instance, n: string, failOnUnknown: bool, after: int)
    requires 1 <= at && at < after <= |ts| && ts[at] == FieldName(n)
    requires n !in c.propsByName && (!failOnUnknown || n in c.ignorableNames)
    requires SkipEnd(ts, at + 1) == after - 1
    ensures ReadRestAt(c, ts, at - 1, bean, failOnUnknown) == ReadRestAt(c, ts, after - 1, bean, failOnUnknown)
  {
    assert Advance(ts, at - 1) == at && Advance(ts, at) == at + 1;
    ReadRestSkipStep(c, ts, at - 1, bean, failOnUnknown, n, after - 1);
  }

  /** One iteration of the recovery loop on a primary name, stated on the cursor:
      the property's reader reads `v`, ending at `p2`, and the loop goes on from
      there with `v` stored. */
  lemma ReadRestKnownStep(c: Config, ts: seq<Token>, pos: int, bean: Instance, failOnUnknown: bool,
                          n: string, v: Value, p2: int)
    requires ValidPos(ts, pos) && CurrentAt(ts, Advance(ts, pos)) == Some(FieldName(n))
    requires n in c.propsByName && c.propsByName[n].reader.ReadAt(ts, Advance(ts, Advance(ts, pos))) == (v, p2)
    ensures ReadRestAt(c, ts, pos, bean, failOnUnknown) ==
      ReadRestAt(c, ts, p2, bean.(props := bean.props[c.propsByName[n].name := v]), failOnUnknown)
  {
  }

  /** One iteration of the recovery loop on a name it tolerates without a
      property: the value is skipped up to `p2` and the loop goes on from there. */
  lemma ReadRestSkipStep(c: Config, ts: seq<Token>, pos: int, bean: Instance, failOnUnknown: bool, n: string, p2: int)
    requires ValidPos(ts, pos) && CurrentAt(ts, Advance(ts, pos)) == Some(FieldName(n))
    requires n !in c.propsByName && (!failOnUnknown || n in c.ignorableNames)
    requires SkipEnd(ts, Advance(ts, Advance(ts, pos))) == p2
    ensures ReadRestAt(c, ts, pos, bean, failOnUnknown) == ReadRestAt(c, ts, p2, bean, failOnUnknown)
  {
  }

  /** One member with a known name read through the dispatch table: the value
      its reader reads is stored under its reader's name. */
  lemma {:induction false} ReadBeanKnownMember(c: Config, ts: seq<Token>, at: int, bean: Instance, m: Member, failOnUnknown: bool, after: int)
    requires MatcherBuilt(c) && m.name in ByName(c)
    requires 1 <= at && after == at + 1 + |m.value| && after < |ts|
    requires ts[at] == FieldName(m.name) && ByName(c)[m.name].reader.ReadAt(ts, at + 1) == (m.value, after - 1)
    ensures ReadBeanAt(c, ts, at - 1, bean, failOnUnknown) ==
      ReadBeanAt(c, ts, after - 1, bean.(props := bean.props[ByName(c)[m.name].name := m.value]), failOnUnknown)
  {
    var prop := ByName(c)[m.name];
    DispatchAt(c, ts, at, m.name);
    ReadBeanKnownStep(c, ts, at - 1, bean, failOnUnknown, prop, m.value, after - 1);
  }

  /** A known name at index `at` is the next token the matcher loop sees from
      `at - 1`, and it dispatches to the name's reader, whose value starts at
      `at + 1`. */
  lemma DispatchAt(c: Config, ts: seq<Token>, at: int, n: string)
    requires MatcherBuilt(c) && n in ByName(c)
    requires 1 <= at < |ts| && ts[at] == FieldName(n)
    ensures Advance(ts, at - 1) == at && Advance(ts, at) == at + 1
    ensures var ix := MatchCode(c.matcherNames, CurrentAt(ts, at));
      ix >= 0 && c.fieldReaders[ix] == ByName(c)[n]
  {
    DispatchByName(c, n);
  }

  /** One iteration of the matcher loop on a matched name, stated on the cursor:
      the matched property's reader reads `v`, ending at `p2`, and the loop goes
      on from there with `v` stored. */
  lemma ReadBeanKnownStep(c: Config, ts: seq<Token>, pos: int, bean: Instance, failOnUnknown: bool,
                          prop: PropertyReader, v: Value, p2: int)
    requires ValidPos(ts, pos) && Shaped(c)
    requires MatchCode(c.matcherNames, CurrentAt(ts, Advance(ts, pos))) >= 0
    requires prop == c.fieldReaders[MatchCode(c.matcherNames, CurrentAt(ts, Advance(ts, pos)))]
    requires prop.reader.ReadAt(ts, Advance(ts, Advance(ts, pos))) == (v, p2)
    ensures ReadBeanAt(c, ts, pos, bean, failOnUnknown) ==
      ReadBeanAt(c, ts, p2, bean.(props := bean.props[prop.name := v]), failOnUnknown)
  {
  }

  /** One member with an unknown name that the policy tolerates (any name when
      lenient, an ignorable one when strict): its value is skipped and recovery
      reads on from there. */
  lemma ReadBeanUnknownMember(c: Config, ts: seq<Token>, at: int, bean: Instance, n: string, failOnUnknown: bool, after: int)
    requires MatcherBuilt(c) && n !in ByName(c)
    requires failOnUnknown ==> n in c.ignorableNames
    requires 1 <= at && at < after <= |ts| && ts[at] == FieldName(n)
    requires SkipEnd(ts, at + 1) == after - 1
    ensures ReadBeanAt(c, ts, at - 1, bean, failOnUnknown) == ReadRestAt(c, ts, after - 1, bean, failOnUnknown)
  {
    DispatchByName(c, n);
    assert Advance(ts, at - 1) == at && Advance(ts, at) == at + 1;
    assert MatchCode(c.matcherNames, CurrentAt(ts, at)) == MATCH_UNKNOWN_NAME;
    assert HandleUnknownAt(c, ts, at, n, failOnUnknown) == Ok(after - 1);
  }

  /** Before recovery: names go through the dispatch table; under the strict
      policy no member may be rejected. */
  lemma {:induction false} ReadBeanMembers(c: Config, ts: seq<Token>, at: int, bean: Instance, ms: seq<Member>, failOnUnknown: bool)
    requires MatcherBuilt(c) && WellFormedMembers(ms)
    requires failOnUnknown ==> FirstRejected(c, ms, false).None?
    requires 1 <= at && MembersAt(ts, at, ms)
    ensures ReadBeanAt(c, ts, at - 1, bean, failOnUnknown) ==
      Step(Ok(bean.(props := Populated(c, bean.props, ms, false))), at + |MemberTokens(ms)|)
    decreases |ms|, 1
  {
    if ms == [] {
      assert MatchCode(c.matcherNames, CurrentAt(ts, at)) == MATCH_END_OBJECT;
    } else if ms[0].name in ByName(c) {
      ReadBeanMembersKnownHead(c, ts, at, bean, ms, failOnUnknown);
    } else {
      ReadBeanMembersUnknownHead(c, ts, at, bean, ms, failOnUnknown);
    }
  }

  /** The matcher loop when the first member's name is known: store, then go on. */
  lemma {:induction false} ReadBeanMembersKnownHead(c: Config, ts: seq<Token>, at: int, bean: Instance, ms: seq<Member>, failOnUnknown: bool)
    requires MatcherBuilt(c) && WellFormedMembers(ms) && ms != [] && ms[0].name in ByName(c)
    requires failOnUnknown ==> FirstRejected(c, ms, false).None?
    requires 1 <= at && MembersAt(ts, at, ms)
    ensures ReadBeanAt(c, ts, at - 1, bean, failOnUnknown) ==
      Step(Ok(bean.(props := Populated(c, bean.props, ms, false))), at + |MemberTokens(ms)|)
    decreases |ms|, 0
  {
    var m := ms[0];
    var after := at + 1 + |m.value|;
    HeadRead(ByName(c)[m.name].reader, ts, at, ms, after);
    ReadBeanKnownMember(c, ts, at, bean, m, failOnUnknown, after);
    ReadBeanMembers(c, ts, after, bean.(props := bean.props[ByName(c)[m.name].name := m.value]), ms[1..], failOnUnknown);
  }

  /** The first member's value as a reader reads it, and the rest in place. */
  lemma HeadRead(r: ValueReader, ts: seq<Token>, at: int, ms: seq<Member>, after: int)
    requires WellFormedMembers(ms) && ms != [] && MembersAt(ts, at, ms)
    requires after == at + 1 + |ms[0].value|
    ensures after < |ts| && ts[at] == FieldName(ms[0].name)
    ensures r.ReadAt(ts, at + 1) == (ms[0].value, after - 1)
    ensures WellFormedMembers(ms[1..]) && MembersAt(ts, after, ms[1..])
    ensures after + |MemberTokens(ms[1..])| == at + |MemberTokens(ms)|
  {
    HeadSkip(ts, at, ms, after);
  }

  /** The first member's value as it is skipped, and the rest in place. */
  lemma HeadSkip(ts: seq<Token>, at: int, ms: seq<Member>, after: int)
    requires WellFormedMembers(ms) && ms != [] && MembersAt(ts, at, ms)
    requires after == at + 1 + |ms[0].value|
    ensures after < |ts| && ts[at] == FieldName(ms[0].name)
    ensures ts[at + 1..after] == ms[0].value && SkipEnd(ts, at + 1) == after - 1
    ensures WellFormedMembers(ms[1..]) && MembersAt(ts, after, ms[1..])
    ensures after + |MemberTokens(ms[1..])| == at + |MemberTokens(ms)|
  {
    MemberTokensHead(ts, at, ms, after);
    MembersTail(ms);
    SkipEndOnValue(ts, at + 1, ms[0].value);
  }

  /** The matcher loop when the first member's name is unknown and tolerated:
      skip it and recover. */
  lemma {:induction false} ReadBeanMembersUnknownHead(c: Config, ts: seq<Token>, at: int, bean: Instance, ms: seq<Member>, failOnUnknown: bool)
    requires MatcherBuilt(c) && WellFormedMembers(ms) && ms != [] && ms[0].name !in ByName(c)
    requires failOnUnknown ==> FirstRejected(c, ms, false).None?
    requires 1 <= at && MembersAt(ts, at, ms)
    ensures ReadBeanAt(c, ts, at - 1, bean, failOnUnknown) ==
      Step(Ok(bean.(props := Populated(c, bean.props, ms, false))), at + |MemberTokens(ms)|)
  {
    var after := at + 1 + |ms[0].value|;
    HeadSkip(ts, at, ms, after);
    ReadBeanUnknownMember(c, ts, at, bean, ms[0].name, failOnUnknown, after);
    ReadRestMembers(c, ts, after, bean, ms[1..], failOnUnknown);
  }

  /** During recovery under the strict policy, the first rejected member ends
      the read with the unrecognized-property failure naming it. */
  lemma {:induction false} ReadRestRejects(c: Config, ts: seq<Token>, at: int, bean: Instance, ms: seq<Member>, n: string)
    requires WellFormedMembers(ms) && FirstRejected(c, ms, true) == Some(n)
    requires 1 <= at && MembersAt(ts, at, ms)
    ensures ReadRestAt(c, ts, at - 1, bean, true).result == Err(Unrecognized(n, c.valueType, KnownNames(c)))
    decreases |ms|
  {
    var m := ms[0];
    var after := at + 1 + |m.value|;
    if m.name in c.propsByName {
      HeadRead(c.propsByName[m.name].reader, ts, at, ms, after);
      ReadRestKnownMember(c, ts, at, bean, m.name, m.value, true, after);
      ReadRestRejects(c, ts, after, bean.(props := bean.props[c.propsByName[m.name].name := m.value]), ms[1..], n);
    } else if m.name in c.ignorableNames {
      HeadSkip(ts, at, ms, after);
      ReadRestSkippedMember(c, ts, at, bean, m.name, true, after);
      ReadRestRejects(c, ts, after, bean, ms[1..], n);
    } else {
      MemberTokensHead(ts, at, ms, after);
      assert Advance(ts, at - 1) == at;
      RecoveryRejectsUnknown(c, ts, at - 1, bean, m.name);
    }
  }

  /** Before recovery under the strict policy, the first rejected member ends the
      read with the unrecognized-property failure naming it. */
  lemma {:induction false} ReadBeanRejects(c: Config, ts: seq<Token>, at: int, bean: Instance, ms: seq<Member>, n: string)
    requires MatcherBuilt(c) && WellFormedMembers(ms) && FirstRejected(c, ms, false) == Some(n)
    requires 1 <= at && MembersAt(ts, at, ms)
    ensures ReadBeanAt(c, ts, at - 1, bean, true).result == Err(Unrecognized(n, c.valueType, KnownNames(c)))
    decreases |ms|, 1
  {
    var m := ms[0];
    if m.name in ByName(c) {
      ReadBeanRejectsKnownHead(c, ts, at, bean, ms, n);
    } else if m.name in c.ignorableNames {
      var after := at + 1 + |m.value|;
      HeadSkip(ts, at, ms, after);
      ReadBeanUnknownMember(c, ts, at, bean, m.name, true, after);
      ReadRestRejects(c, ts, after, bean, ms[1..], n);
    } else {
      MemberTokensHead(ts, at, ms, at + 1 + |m.value|);
      assert Advance(ts, at - 1) == at;
      MatcherRejectsUnknown(c, ts, at - 1, bean, m.name);
    }
  }

  /** The strict matcher loop when the first member's name is known: store, then
      look for the rejected member among the rest. */
  lemma {:induction false} ReadBeanRejectsKnownHead(c: Config, ts: seq<Token>, at: int, bean: Instance, ms: seq<Member>, n: string)
    requires MatcherBuilt(c) && WellFormedMembers(ms) && FirstRejected(c, ms, false) == Some(n)
    requires ms != [] && ms[0].name in ByName(c)
    requires 1 <= at && MembersAt(ts, at, ms)
    ensures ReadBeanAt(c, ts, at - 1, bean, true).result == Err(Unrecognized(n, c.valueType, KnownNames(c)))
    decreases |ms|, 0
  {
    var m := ms[0];
    var after := at + 1 + |m.value|;
    var next := bean.(props := bean.props[ByName(c)[m.name].name := m.value]);
    HeadRead(ByName(c)[m.name].reader, ts, at, ms, after);
    ReadBeanKnownMember(c, ts, at, bean, m, true, after);
    ReadBeanRejects(c, ts, after, next, ms[1..], n);
  }

  /** Before recovery under the strict policy, a name that is neither in the
      dispatch table nor ignorable ends the read with the unrecognized-property
      failure, on that name. */
  lemma MatcherRejectsUnknown(c: Config, ts: seq<Token>, pos: int, bean: Instance, n: string)
    requires MatcherBuilt(c) && ValidPos(ts, pos) && CurrentAt(ts, Advance(ts, pos)) == Some(FieldName(n))
    requires n !in ByName(c) && n !in c.ignorableNames
    ensures ReadBeanAt(c, ts, pos, bean, true) == Step(Err(Unrecognized(n, c.valueType, KnownNames(c))), Advance(ts, pos))
  {
    DispatchByName(c, n);
  }

  /** Reading a well-formed object: with a default constructor the bean carries
      exactly the properties `Populated` assigns from the members, and the cursor
      is left on the object's closing token; without one the read fails.
      Under the strict policy this holds when no member is rejected. */
  lemma ReadObjectRoundTrip(c: Config, ms: seq<Member>, rest: seq<Token>, failOnUnknown: bool)
    requires MatcherBuilt(c) && WellFormedMembers(ms)
    requires failOnUnknown ==> FirstRejected(c, ms, false).None?
    ensures var r := ReadAt(c, ObjectTokens(ms) + rest, 0, failOnUnknown);
      && (c.defaultCtor.None? ==> r.result.Err? && r.result.error.FailedToCreate?)
      && (c.defaultCtor.Some? ==>
            r == Step(Ok(BeanValue(Instance(c.defaultCtor.value, NoArg, Populated(c, map[], ms, false)))),
                      |ObjectTokens(ms)| - 1))
  {
    var ts := ObjectTokens(ms) + rest;
    var mt := MemberTokens(ms);
    assert ts[0] == StartObject;
    assert ts[1..1 + |mt|] == mt && ts[1 + |mt|] == EndObject by {
      assert ObjectTokens(ms) == [StartObject] + mt + [EndObject];
    }
    MemberTokensAt(ts, 1, ms);
    if c.defaultCtor.Some? {
      ReadBeanMembers(c, ts, 1, Instance(c.defaultCtor.value, NoArg, map[]), ms, failOnUnknown);
    }
  }

  /** The strict policy on a well-formed object: the read ends exactly as the
      lenient read does iff no member is rejected (every unknown name is
      ignorable); otherwise it fails naming the first rejected member. */
  lemma ReadObjectStrict(c: Config, ms: seq<Member>, rest: seq<Token>)
    requires MatcherBuilt(c) && WellFormedMembers(ms) && c.defaultCtor.Some?
    ensures var ts := ObjectTokens(ms) + rest;
      && (FirstRejected(c, ms, false).None? <==> ReadAt(c, ts, 0, true) == ReadAt(c, ts, 0, false))
      && (FirstRejected(c, ms, false).Some? ==>
            ReadAt(c, ts, 0, true).result == Err(Unrecognized(FirstRejected(c, ms, false).value, c.valueType, KnownNames(c))))
  {
    ReadObjectRoundTrip(c, ms, rest, false);
    if FirstRejected(c, ms, false).None? {
      ReadObjectRoundTrip(c, ms, rest, true);
    } else {
      ReadObjectRejects(c, ms, rest);
    }
  }

  /** A strict read of a well-formed object with a rejected member fails naming
      the first one. */
  lemma ReadObjectRejects(c: Config, ms: seq<Member>, rest: seq<Token>)
    requires MatcherBuilt(c) && WellFormedMembers(ms) && c.defaultCtor.Some?
    requires FirstRejected(c, ms, false).Some?
    ensures ReadAt(c, ObjectTokens(ms) + rest, 0, true).result ==
      Err(Unrecognized(FirstRejected(c, ms, false).value, c.valueType, KnownNames(c)))
  {
    var ts := ObjectTokens(ms) + rest;
    var mt := MemberTokens(ms);
    assert ts[0] == StartObject;
    assert ts[1..1 + |mt|] == mt && ts[1 + |mt|] == EndObject by {
      assert ObjectTokens(ms) == [StartObject] + mt + [EndObject];
    }
    MemberTokensAt(ts, 1, ms);
    ReadBeanRejects(c, ts, 1, Instance(c.defaultCtor.value, NoArg, map[]), ms, FirstRejected(c, ms, false).value);
  }

  /** With every name known, each member's property is set, to the value of the
      last member that sets the same property. */
  lemma {:induction false} PopulatedLastWins(c: Config, props: map<string, Value>, ms: seq<Member>, recovering: bool, i: int)
    requires forall j :: 0 <= j < |ms| ==> ms[j].name in Table(c, recovering)
    requires 0 <= i < |ms|
    requires forall j :: i < j < |ms| ==>
      Table(c, recovering)[ms[j].name].name != Table(c, recovering)[ms[i].name].name
    ensures var q := Table(c, recovering)[ms[i].name].name;
      q in Populated(c, props, ms, recovering) && Populated(c, props, ms, recovering)[q] == ms[i].value
    decreases |ms|
  {
    var t := Table(c, recovering);
    var next := props[t[ms[0].name].name := ms[0].value];
    assert forall j :: 0 <= j < |ms[1..]| ==> ms[1..][j] == ms[j + 1];
    if i > 0 {
      PopulatedLastWins(c, next, ms[1..], recovering, i - 1);
    } else {
      PopulatedUntouched(c, next, ms[1..], recovering, t[ms[0].name].name);
    }
  }

  /** Reading a well-formed object whose names are all known sets, for every
      member, its reader's property, to the value of the last member that sets
      that property. */
  lemma ReadObjectSetsEveryMember(c: Config, ms: seq<Member>, rest: seq<Token>, failOnUnknown: bool, i: int)
    requires MatcherBuilt(c) && WellFormedMembers(ms) && c.defaultCtor.Some?
    requires forall j :: 0 <= j < |ms| ==> ms[j].name in ByName(c)
    requires 0 <= i < |ms|
    requires forall j :: i < j < |ms| ==> ByName(c)[ms[j].name].name != ByName(c)[ms[i].name].name
    ensures var r := ReadAt(c, ObjectTokens(ms) + rest, 0, failOnUnknown);
      var q := ByName(c)[ms[i].name].name;
      && r.result.Ok? && r.result.value.BeanValue?
      && q in r.result.value.bean.props
      && r.result.value.bean.props[q] == ms[i].value
  {
    KnownNamesAccepted(c, ms, false);
    ReadObjectRoundTrip(c, ms, rest, failOnUnknown);
    PopulatedLastWins(c, map[], ms, false, i);
  }

  /** Leniently, after the first unknown name has been skipped, each later member
      with a primary name still sets its property, to the value of the last member
      that sets it. */
  lemma ReadObjectSetsMemberAfterUnknown(c: Config, ms: seq<Member>, rest: seq<Token>, u: int, i: int)
    requires MatcherBuilt(c) && WellFormedMembers(ms) && c.defaultCtor.Some?
    requires 0 <= u < i < |ms| && ms[u].name !in ByName(c)
    requires forall j :: 0 <= j < u ==> ms[j].name in ByName(c)
    requires forall j :: u < j < |ms| ==> ms[j].name in c.propsByName
    requires forall j :: i < j < |ms| ==> c.propsByName[ms[j].name].name != c.propsByName[ms[i].name].name
    ensures var r := ReadAt(c, ObjectTokens(ms) + rest, 0, false);
      var q := c.propsByName[ms[i].name].name;
      && r.result.Ok? && r.result.value.BeanValue?
      && q in r.result.value.bean.props
      && r.result.value.bean.props[q] == ms[i].value
  {
    ReadObjectRoundTrip(c, ms, rest, false);
    PopulatedAfterUnknown(c, ms, u, i);
  }

  /** After the first unknown name, a member with a primary name sets its
      property unless a later member sets the same one. */
  lemma PopulatedAfterUnknown(c: Config, ms: seq<Member>, u: int, i: int)
    requires 0 <= u < i < |ms| && ms[u].name !in ByName(c)
    requires forall j :: 0 <= j < u ==> ms[j].name in ByName(c)
    requires forall j :: u < j < |ms| ==> ms[j].name in c.propsByName
    requires forall j :: i < j < |ms| ==> c.propsByName[ms[j].name].name != c.propsByName[ms[i].name].name
    ensures var q := c.propsByName[ms[i].name].name;
      q in Populated(c, map[], ms, false) && Populated(c, map[], ms, false)[q] == ms[i].value
  {
    PopulatedFirstUnknown(c, map[], ms, u);
    var tail := ms[u + 1..];
    assert forall j :: 0 <= j < |tail| ==> tail[j] == ms[u + 1 + j];
    PopulatedLastWins(c, Populated(c, map[], ms[..u], false), tail, true, i - u - 1);
  }

  /** A property no known member sets keeps its value. */
  lemma {:induction false} PopulatedUntouched(c: Config, props: map<string, Value>, ms: seq<Member>, recovering: bool, q: string)
    requires forall j :: 0 <= j < |ms| ==> ms[j].name in Table(c, recovering)
    requires forall j :: 0 <= j < |ms| ==> Table(c, recovering)[ms[j].name].name != q
    requires q in props
    ensures q in Populated(c, props, ms, recovering) && Populated(c, props, ms, recovering)[q] == props[q]
    decreases |ms|
  {
    if ms != [] {
      var t := Table(c, recovering);
      assert forall j :: 0 <= j < |ms[1..]| ==> ms[1..][j] == ms[j + 1];
      PopulatedUntouched(c, props[t[ms[0].name].name := ms[0].value], ms[1..], recovering, q);
    }
  }

  /** The first unknown name splits the members: those before it are matched
      through the dispatch table, those after it by primary name only. */
  lemma {:induction false} PopulatedFirstUnknown(c: Config, props: map<string, Value>, ms: seq<Member>, u: int)
    requires 0 <= u < |ms| && ms[u].name !in ByName(c)
    requires forall j :: 0 <= j < u ==> ms[j].name in ByName(c)
    ensures Populated(c, props, ms, false) == Populated(c, Populated(c, props, ms[..u], false), ms[u + 1..], true)
    decreases u
  {
    if u > 0 {
      var t := Table(c, false);
      assert ms[1..][u - 1] == ms[u] && ms[1..][..u - 1] == ms[1..u] && ms[1..][u..] == ms[u + 1..];
      assert forall j :: 0 <= j < u - 1 ==> ms[1..][j] == ms[j + 1];
      PopulatedFirstUnknown(c, props[t[ms[0].name].name := ms[0].value], ms[1..], u - 1);
      assert ms[..u][0] == ms[0] && ms[..u][1..] == ms[1..u];
    } else {
      assert ms[..0] == [];
    }
  }

  /* ---------- worked cases ---------- */

  /** A `Person` bean with one property, `name`, also known by the alias `fullName`,
      and only a default constructor. */
  function PersonReader(): PropertyReader
  {
    PropertyReader("name", ValueReader("java.lang.String"))
  }

  function PersonConfig(ignorable: set<string>): Config
  {
    Config("Person", map["name" := PersonReader()], map["fullName" := "name"], ignorable,
      Some(0), None, None, ["name", "fullName"], [PersonReader(), PersonReader()])
  }

  /** An alias dispatches to its target's reader, and the value is stored under the
      primary name. */
  lemma AliasReadsPrimaryProperty()
    ensures ReadAt(PersonConfig({}), [StartObject, FieldName("fullName"), ValueString("Ann"), EndObject], 0, true)
      == Step(Ok(BeanValue(Instance(0, NoArg, map["name" := [ValueString("Ann")]]))), 3)
  {
    var c := PersonConfig({});
    var ts := [StartObject, FieldName("fullName"), ValueString("Ann"), EndObject];
    assert MatchCode(c.matcherNames, CurrentAt(ts, 1)) == 1;
    assert ts[2..3] == [ValueString("Ann")];
    assert PersonReader().reader.ReadAt(ts, 2) == ([ValueString("Ann")], 2);
    var b := Instance(0, NoArg, map["name" := [ValueString("Ann")]]);
    assert MatchCode(c.matcherNames, CurrentAt(ts, 3)) == MATCH_END_OBJECT;
    assert ReadBeanAt(c, ts, 2, b, true) == Step(Ok(b), 3);
  }

  /** After an unknown property has been skipped, an alias is no longer recognized:
      the lenient read skips it too and the property stays unset. */
  lemma AliasUnknownAfterRecovery()
    ensures ReadAt(PersonConfig({}),
        [StartObject, FieldName("extra"), StartArray, ValueNumberInt(1), EndArray,
         FieldName("fullName"), ValueString("Ann"), EndObject], 0, false)
      == Step(Ok(BeanValue(Instance(0, NoArg, map[]))), 7)
  {
    var c := PersonConfig({});
    var ts := [StartObject, FieldName("extra"), StartArray, ValueNumberInt(1), EndArray,
               FieldName("fullName"), ValueString("Ann"), EndObject];
    var b := Instance(0, NoArg, map[]);
    assert MatchCode(c.matcherNames, CurrentAt(ts, 1)) == MATCH_UNKNOWN_NAME;
    assert ScanEnd(ts, 4, 1) == 4;
    assert SkipEnd(ts, 2) == 4;
    assert HandleUnknownAt(c, ts, 1, "extra", false) == Ok(4);
    assert HandleUnknownAt(c, ts, 5, "fullName", false) == Ok(6);
    assert ReadRestAt(c, ts, 6, b, false) == Step(Ok(b), 7);
    assert ReadRestAt(c, ts, 4, b, false) == Step(Ok(b), 7);
  }

  /** In recovery under the strict policy, a name that is neither a primary name nor
      ignorable ends the read with the unrecognized-property failure, on that name. */
  lemma RecoveryRejectsUnknown(c: Config, ts: seq<Token>, pos: int, bean: Instance, n: string)
    requires ValidPos(ts, pos) && CurrentAt(ts, Advance(ts, pos)) == Some(FieldName(n))
    requires n !in c.propsByName && n !in c.ignorableNames
    ensures ReadRestAt(c, ts, pos, bean, true) == Step(Err(Unrecognized(n, c.valueType, KnownNames(c))), Advance(ts, pos))
  {
  }

  /** Under the strict policy an ignorable name is skipped, but the alias that follows
      it is then reported as unrecognized. */
  lemma StrictReportsAliasAfterIgnorable()
    ensures ReadAt(PersonConfig({"extra"}),
        [StartObject, FieldName("extra"), ValueTrue, FieldName("fullName"), ValueString("Ann"), EndObject], 0, true)
      == Step(Err(Unrecognized("fullName", "Person", KnownNames(PersonConfig({"extra"})))), 3)
  {
    var c := PersonConfig({"extra"});
    var ts := [StartObject, FieldName("extra"), ValueTrue, FieldName("fullName"), ValueString("Ann"), EndObject];
    var b := Instance(0, NoArg, map[]);
    assert MatchCode(c.matcherNames, CurrentAt(ts, 1)) == MATCH_UNKNOWN_NAME;
    assert HandleUnknownAt(c, ts, 1, "extra", true) == Ok(2);
    RecoveryRejectsUnknown(c, ts, 2, b, "fullName");
    var failed := Step(Err(Unrecognized("fullName", "Person", KnownNames(c))), 3);
    assert ReadWithUnknownAt(c, ts, 1, b, "extra", true) == failed;
    assert ReadBeanAt(c, ts, 0, b, true) == failed;
  }

  /** Under the strict policy an ignorable name is skipped with its value and the
      read succeeds. */
  lemma StrictSkipsIgnorable()
    ensures ReadAt(PersonConfig({"extra"}), [StartObject, FieldName("extra"), ValueTrue, EndObject], 0, true)
      == Step(Ok(BeanValue(Instance(0, NoArg, map[]))), 3)
  {
    var c := PersonConfig({"extra"});
    var ts := [StartObject, FieldName("extra"), ValueTrue, EndObject];
    var b := Instance(0, NoArg, map[]);
    assert MatchCode(c.matcherNames, CurrentAt(ts, 1)) == MATCH_UNKNOWN_NAME;
    assert HandleUnknownAt(c, ts, 1, "extra", true) == Ok(2);
    assert ReadRestAt(c, ts, 2, b, true) == Step(Ok(b), 3);
  }

  /** A JSON String goes to the single-String constructor; without one the failure
      names the type and the missing constructor. */
  lemma StringWithoutStringConstructor()
    ensures ReadAt(PersonConfig({}), [ValueString("Ann")], 0, true)
      == Step(Err(FailedToCreate("Person", "java.lang.IllegalStateException",
           MissingConstructorMessage("Person", "single-String"))), 0)
  {
  }

  /** An integer outside the range of `long` fails in the token layer before the
      constructor is looked for. */
  lemma LongOutOfRangeBeforeConstructor()
    ensures ReadAt(PersonConfig({}), [ValueNumberInt(MAX_LONG + 1)], 0, true)
      == Step(Err(InputCoercion(MAX_LONG + 1)), 0)
  {
  }

  /** Any other token cannot start a bean: the failure describes it. */
  lemma ArrayCannotCreateBean()
    ensures ReadAt(PersonConfig({}), [StartArray, EndArray], 0, true)
      == Step(Err(CannotCreate("Person", "JSON Array")), 0)
  {
  }

  /** `readNext` on an exhausted input finds no token and cannot create a bean. */
  lemma ExhaustedInputCannotCreateBean(ts: seq<Token>)
    ensures ReadAt(PersonConfig({}), ts, Advance(ts, |ts|), true) == Step(Err(CannotCreate("Person", "NULL")), |ts|)
  {
  }
}
