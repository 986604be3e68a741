/** `BeanReader`: the reader object with its matcher and reader array, and its
    methods driving a `Parser`, each proved to compute what `BeanReading` specifies. */
module BeanReaders {
  import opened Wrappers
  import opened StringOrder
  import opened Tokens
  import opened ValueReaders
  import opened BeanReading
  import PropBuilders

  class BeanReader {
    const valueType: string
    const propsByName: map<string, PropertyReader>
    const aliasMapping: map<string, string>
    const ignorableNames: set<string>
    const defaultCtor: Option<PropBuilders.MemberId>
    const stringCtor: Option<PropBuilders.MemberId>
    const longCtor: Option<PropBuilders.MemberId>

    /** Filled in by `InitFieldMatcher`, after construction. */
    var fieldMatcher: seq<string>
    var fieldReaders: array<PropertyReader>

    /** The reader's state as the specification sees it. */
    function Config(): Config
      reads this, fieldReaders
    {
      BeanReading.Config(valueType, propsByName, aliasMapping, ignorableNames,
        defaultCtor, stringCtor, longCtor, fieldMatcher, fieldReaders[..])
    }

    /** `initFieldMatcher` has run. */
    ghost predicate Ready()
      reads this, fieldReaders
    {
      MatcherBuilt(Config())
    }

    constructor (valueType: string, propsByName: map<string, PropertyReader>,
                 defaultCtor: Option<PropBuilders.MemberId>, stringCtor: Option<PropBuilders.MemberId>,
                 longCtor: Option<PropBuilders.MemberId>,
                 ignorableNames: set<string>, aliasMapping: map<string, string>)
      ensures this.valueType == valueType && this.propsByName == propsByName
      ensures this.defaultCtor == defaultCtor && this.stringCtor == stringCtor && this.longCtor == longCtor
      ensures this.ignorableNames == ignorableNames && this.aliasMapping == aliasMapping
      ensures fieldMatcher == [] && fieldReaders.Length == 0
    {
      this.valueType := valueType;
      this.propsByName := propsByName;
      this.defaultCtor := defaultCtor;
      this.stringCtor := stringCtor;
      this.longCtor := longCtor;
      this.ignorableNames := ignorableNames;
      this.aliasMapping := aliasMapping;
      fieldMatcher := [];
      fieldReaders := new PropertyReader[0];
    }

    /** `construct`: a missing ignorable set or alias map (Java's null) becomes empty. */
    static method Construct(valueType: string, props: map<string, PropertyReader>,
                            defaultCtor: Option<PropBuilders.MemberId>, stringCtor: Option<PropBuilders.MemberId>,
                            longCtor: Option<PropBuilders.MemberId>,
                            ignorableProps: Option<set<string>>, aliasMapping: Option<map<string, string>>)
      returns (r: BeanReader)
      ensures fresh(r)
      ensures r.valueType == valueType && r.propsByName == props
      ensures r.defaultCtor == defaultCtor && r.stringCtor == stringCtor && r.longCtor == longCtor
      ensures r.ignorableNames == (if ignorableProps.Some? then ignorableProps.value else {})
      ensures r.aliasMapping == (if aliasMapping.Some? then aliasMapping.value else map[])
    {
      var ignorable := if ignorableProps.Some? then ignorableProps.value else {};
      var aliases := if aliasMapping.Some? then aliasMapping.value else map[];
      r := new BeanReader(valueType, props, defaultCtor, stringCtor, longCtor, ignorable, aliases);
    }

    /** `findProperty`: primary names only, so an alias is never found. */
    function FindProperty(name: string): (r: Option<PropertyReader>)
      reads this
      ensures r.Some? <==> name in propsByName
      ensures r.Some? ==> r.value == propsByName[name]
      ensures name in AddedAliases(propsByName, aliasMapping) ==> r.None?
    {
      if name in propsByName then Some(propsByName[name]) else None
    }

    /** `_mixInAliases`: copy the primary map, then add each alias that neither
        shadows a primary name nor points at a missing one. */
    static method MixInAliases(props: map<string, PropertyReader>, aliases: map<string, string>)
      returns (result: map<string, PropertyReader>)
      ensures result == AliasTable(props, aliases)
    {
      result := props;
      var remaining := aliases.Keys;
      while remaining != {}
        invariant remaining <= aliases.Keys
        invariant forall k :: k in result <==> k in props || (k in AddedAliases(props, aliases) && k !in remaining)
        invariant forall k :: k in result ==> result[k] == AliasTable(props, aliases)[k]
        decreases remaining
      {
        var alias :| alias in remaining;
        var mappedTo := aliases[alias];
        if alias !in props {
          if mappedTo in props {
            result := result[alias := props[mappedTo]];
          }
        }
        remaining := remaining - {alias};
      }
      assert result.Keys == AliasTable(props, aliases).Keys;
    }

    /** `initFieldMatcher`: list the names of the table (with aliases mixed in when
        there are any) and put each one's reader at the same index. */
    method InitFieldMatcher()
      modifies this
      ensures fresh(fieldReaders)
      ensures Ready()
    {
      var byName := propsByName;
      if |aliasMapping| != 0 {
        byName := MixInAliases(propsByName, aliasMapping);
      }
      var names, readers := Entries(byName);
      fieldMatcher := names;
      fieldReaders := readers;
      assert byName == ByName(Config());
    }

    /** The loop over the table's entries: names in iteration order, readers in a new
        array of the table's size, at matching indices. */
    static method Entries(byName: map<string, PropertyReader>) returns (names: seq<string>, readers: array<PropertyReader>)
      ensures fresh(readers)
      ensures |names| == readers.Length && Distinct(names)
      ensures forall n :: n in names <==> n in byName
      ensures forall i :: 0 <= i < |names| ==> names[i] in byName && readers[i] == byName[names[i]]
    {
      var size := |byName|;
      names := [];
      readers := new PropertyReader[size];
      var remaining := byName.Keys;
      while remaining != {}
        invariant remaining <= byName.Keys
        invariant |names| + |remaining| == size
        invariant Distinct(names)
        invariant forall n :: n in names <==> n in byName && n !in remaining
        invariant forall i :: 0 <= i < |names| ==> names[i] in byName && readers[i] == byName[names[i]]
        decreases remaining
      {
        var name :| name in remaining;
        readers[|names|] := byName[name];
        names := names + [name];
        remaining := remaining - {name};
      }
    }

    /** `handleUnknown` with the cursor on the unknown name: the failure to throw, if
        any, else the value skipped. */
    method HandleUnknown(p: Parser, fieldName: string, failOnUnknown: bool) returns (err: Option<Failure>)
      requires p.Valid()
      modifies p
      ensures p.Valid()
      ensures err.Some? ==> p.pos == old(p.pos)
      ensures HandleUnknownAt(Config(), p.tokens, old(p.pos), fieldName, failOnUnknown)
        == (if err.Some? then Err(err.value) else Ok(p.pos))
    {
      if failOnUnknown && fieldName !in ignorableNames {
        var sorted := SortNames(propsByName.Keys);
        var sb := QuoteAll(sorted);
        return Some(Unrecognized(fieldName, valueType, sb));
      }
      var _ := p.NextToken();
      p.SkipChildren();
      err := None;
    }

    /** The string-builder loop of `handleUnknown`: each name quoted, separated by
        `", "`. */
    method QuoteAll(sorted: seq<string>) returns (sb: string)
      ensures sb == QuotedList(sorted)
    {
      sb := "";
      if |sorted| > 0 {
        sb := Quote(sorted[0]);
        assert sorted[..1] == [sorted[0]];
        var i := 1;
        while i < |sorted|
          invariant 1 <= i <= |sorted|
          invariant sb == QuotedList(sorted[..i])
        {
          var next := sorted[..i + 1];
          assert next[..i] == sorted[..i] && next[i] == sorted[i];
          sb := sb + ", " + Quote(sorted[i]);
          i := i + 1;
        }
        assert sorted[..|sorted|] == sorted;
      }
    }

    /** `_readWithUnknown` with the cursor on the first unknown name. */
    method ReadWithUnknown(p: Parser, bean: Instance, propName: string, failOnUnknown: bool)
      returns (r: Result<Instance, Failure>)
      requires p.Valid()
      modifies p
      ensures p.Valid()
      ensures Step(r, p.pos) == ReadWithUnknownAt(Config(), p.tokens, old(p.pos), bean, propName, failOnUnknown)
    {
      ghost var c := Config();
      ghost var ts := p.tokens;
      ghost var pos0 := p.pos;
      var err := HandleUnknown(p, propName, failOnUnknown);
      if err.Some? {
        return Err(err.value);
      }
      var b := bean;
      ghost var prev := p.pos;
      var name := p.NextFieldName();
      while name.Some?
        invariant p.Valid() && p.tokens == ts && ValidPos(ts, prev)
        invariant p.pos == Advance(ts, prev)
        invariant name.Some? <==> p.Current().Some? && p.Current().value.FieldName?
        invariant name.Some? ==> name.value == p.Current().value.name
        invariant ReadWithUnknownAt(c, ts, pos0, bean, propName, failOnUnknown) == ReadRestAt(c, ts, prev, b, failOnUnknown)
        decreases |ts| - p.pos
      {
        var prop := FindProperty(name.value);
        if prop.None? {
          err := HandleUnknown(p, name.value, failOnUnknown);
          if err.Some? {
            return Err(err.value);
          }
        } else {
          var value := prop.value.reader.ReadNext(p);
          b := b.(props := b.props[prop.value.name := value]);
        }
        prev := p.pos;
        name := p.NextFieldName();
      }
      if p.Current() != Some(EndObject) {
        return Err(UnexpectedToken(p.Current()));
      }
      return Ok(b);
    }

    /** `_readBean` with the cursor on the object's start: dispatch through the matcher
        while names are known. The source unrolls the loop body twice; one iteration
        per property reads the same tokens and sets the same values. */
    method ReadBean(p: Parser, bean: Instance, failOnUnknown: bool) returns (r: Result<Instance, Failure>)
      requires p.Valid() && Ready()
      modifies p
      ensures p.Valid()
      ensures Step(r, p.pos) == ReadBeanAt(Config(), p.tokens, old(p.pos), bean, failOnUnknown)
    {
      ghost var c := Config();
      ghost var ts := p.tokens;
      ghost var pos0 := p.pos;
      var b := bean;
      ghost var prev := p.pos;
      var ix := p.NextFieldNameMatch(fieldMatcher);
      var readers := fieldReaders;
      while ix >= 0
        invariant p.Valid() && p.tokens == ts && ValidPos(ts, prev)
        invariant p.pos == Advance(ts, prev)
        invariant ix == MatchCode(fieldMatcher, p.Current())
        invariant ReadBeanAt(c, ts, pos0, bean, failOnUnknown) == ReadBeanAt(c, ts, prev, b, failOnUnknown)
        decreases |ts| - p.pos
      {
        var prop := readers[ix];
        var value := prop.reader.ReadNext(p);
        b := b.(props := b.props[prop.name := value]);
        prev := p.pos;
        ix := p.NextFieldNameMatch(fieldMatcher);
      }
      if ix != MATCH_END_OBJECT {
        if ix == MATCH_UNKNOWN_NAME {
          r := ReadWithUnknown(p, b, p.Current().value.name, failOnUnknown);
          return;
        }
        return Err(UnexpectedToken(p.Current()));
      }
      return Ok(b);
    }

    /** The outcome of a constructor call. */
    method Finish(created: Result<Instance, CreationError>) returns (r: Result<Outcome, Failure>)
      ensures r == (match created
                    case Ok(b) => Ok(BeanValue(b))
                    case Err(e) => Err(ReportFailureToCreate(Config(), e)))
    {
      match created
      case Ok(b) => r := Ok(BeanValue(b));
      case Err(e) => r := Err(ReportFailureToCreate(Config(), e));
    }

    /** `read` with the cursor on the value's first token. */
    method Read(p: Parser, failOnUnknown: bool) returns (r: Result<Outcome, Failure>)
      requires p.Valid() && Ready()
      modifies p
      ensures p.Valid()
      ensures Step(r, p.pos) == ReadAt(Config(), p.tokens, old(p.pos), failOnUnknown)
    {
      var t := p.Current();
      if t == Some(StartObject) {
        var created := CreateDefault(Config());
        if created.Err? {
          return Err(ReportFailureToCreate(Config(), created.error));
        }
        var s := ReadBean(p, created.value, failOnUnknown);
        if s.Err? {
          return Err(s.error);
        }
        return Ok(BeanValue(s.value));
      }
      if t.Some? {
        match t.value
        case ValueNull => return Ok(NullValue);
        case ValueString(text) => r := Finish(CreateFromText(Config(), text)); return;
        case ValueNumberInt(n) => r := Finish(CreateFromLong(Config(), n)); return;
        case _ =>
      }
      return Err(CannotCreate(valueType, TokenDesc(p.Current())));
    }

    /** `readNext`: its own copy of `read`'s dispatch, on the token `nextToken` returns. */
    method ReadNext(p: Parser, failOnUnknown: bool) returns (r: Result<Outcome, Failure>)
      requires p.Valid() && Ready()
      modifies p
      ensures p.Valid()
      ensures Step(r, p.pos) == ReadAt(Config(), p.tokens, Advance(p.tokens, old(p.pos)), failOnUnknown)
    {
      var t := p.NextToken();
      if t == Some(StartObject) {
        var created := CreateDefault(Config());
        if created.Err? {
          return Err(ReportFailureToCreate(Config(), created.error));
        }
        var s := ReadBean(p, created.value, failOnUnknown);
        if s.Err? {
          return Err(s.error);
        }
        return Ok(BeanValue(s.value));
      }
      if t != None {
        match t.value
        case ValueNull => return Ok(NullValue);
        case ValueString(text) => r := Finish(CreateFromText(Config(), text)); return;
        case ValueNumberInt(n) => r := Finish(CreateFromLong(Config(), n)); return;
        case _ =>
      }
      return Err(CannotCreate(valueType, TokenDesc(p.Current())));
    }
  }
}
