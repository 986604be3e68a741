/** The pull-based token source that the bean reader drives: JSON tokens, a cursor,
    `nextToken`, `skipChildren` and the field-name matcher's lookup. Tokenizing JSON
    text is not part of this model; the source is a finished sequence of tokens. */
module Tokens {
  import opened Wrappers

  /** The kinds of `JsonToken`; names and scalar values travel with their token. */
  datatype Token =
    | NotAvailable
    | StartObject
    | EndObject
    | StartArray
    | EndArray
    | FieldName(name: string)
    | ValueEmbeddedObject
    | ValueString(text: string)
    | ValueNumberInt(value: int)
    | ValueNumberFloat
    | ValueTrue
    | ValueFalse
    | ValueNull

  /** `JsonToken.toString()`: the enum constant's name. */
  function KindName(t: Token): string
  {
    match t
    case NotAvailable => "NOT_AVAILABLE"
    case StartObject => "START_OBJECT"
    case EndObject => "END_OBJECT"
    case StartArray => "START_ARRAY"
    case EndArray => "END_ARRAY"
    case FieldName(_) => "FIELD_NAME"
    case ValueEmbeddedObject => "VALUE_EMBEDDED_OBJECT"
    case ValueString(_) => "VALUE_STRING"
    case ValueNumberInt(_) => "VALUE_NUMBER_INT"
    case ValueNumberFloat => "VALUE_NUMBER_FLOAT"
    case ValueTrue => "VALUE_TRUE"
    case ValueFalse => "VALUE_FALSE"
    case ValueNull => "VALUE_NULL"
  }

  predicate IsStructStart(t: Token)
  {
    t.StartObject? || t.StartArray?
  }

  predicate IsStructEnd(t: Token)
  {
    t.EndObject? || t.EndArray?
  }

  /** The field-name matcher's two sentinels, and its answer for any other token. */
  const MATCH_UNKNOWN_NAME: int := -1
  const MATCH_END_OBJECT: int := -2
  const MATCH_ODD_TOKEN: int := -3

  /** A cursor is -1 before the first token and |ts| once the input is exhausted. */
  predicate ValidPos(ts: seq<Token>, pos: int)
  {
    -1 <= pos <= |ts|
  }

  /** `currentToken()`: None (Java's null) before the first and after the last token. */
  function CurrentAt(ts: seq<Token>, pos: int): Option<Token>
  {
    if 0 <= pos < |ts| then Some(ts[pos]) else None
  }

  /** The cursor after `nextToken()`; an exhausted source stays exhausted. */
  function Advance(ts: seq<Token>, pos: int): (r: int)
    requires ValidPos(ts, pos)
    ensures ValidPos(ts, r) && pos <= r
    ensures pos < |ts| ==> r == pos + 1
  {
    if pos < |ts| then pos + 1 else pos
  }

  /** The cursor reached by reading tokens from index `i` while `depth` containers are
      open: the index of the end token that closes the outermost one, or |ts| when the
      input runs out first. */
  function ScanEnd(ts: seq<Token>, i: int, depth: nat): (r: int)
    requires 0 <= i <= |ts| && depth >= 1
    ensures i <= r <= |ts|
    ensures r < |ts| ==> IsStructEnd(ts[r])
    decreases |ts| - i
  {
    if i == |ts| then |ts|
    else if IsStructStart(ts[i]) then ScanEnd(ts, i + 1, depth + 1)
    else if IsStructEnd(ts[i]) then (if depth == 1 then i else ScanEnd(ts, i + 1, depth - 1))
    else ScanEnd(ts, i + 1, depth)
  }

  /** The cursor after `skipChildren()`: unchanged unless the current token opens an
      object or array, else on the matching end token (or exhausted). */
  function SkipEnd(ts: seq<Token>, pos: int): (r: int)
    requires ValidPos(ts, pos)
    ensures ValidPos(ts, r) && pos <= r
    ensures CurrentAt(ts, pos).Some? && IsStructStart(ts[pos]) && r < |ts| ==> pos < r && IsStructEnd(ts[r])
    ensures !(CurrentAt(ts, pos).Some? && IsStructStart(ts[pos])) ==> r == pos
  {
    if 0 <= pos < |ts| && IsStructStart(ts[pos]) then ScanEnd(ts, pos + 1, 1) else pos
  }

  /** How a token changes the number of open containers. */
  function Delta(t: Token): int
  {
    if IsStructStart(t) then 1 else if IsStructEnd(t) then -1 else 0
  }

  /** The net number of containers the tokens from index `i` up to (not
      including) `e` leave open. */
  function Depth(ts: seq<Token>, i: int, e: int): int
    requires 0 <= i <= e <= |ts|
    decreases e - i
  {
    if i == e then 0 else Delta(ts[i]) + Depth(ts, i + 1, e)
  }

  /** `v` is the token run of one complete JSON value, as far as nesting goes: a
      single token that neither opens nor closes a container, or a container
      whose every proper prefix stays open and whose last token closes it. */
  predicate IsValue(v: seq<Token>)
  {
    && |v| >= 1
    && if IsStructStart(v[0]) then
         Depth(v, 0, |v|) == 0 && forall e :: 1 <= e < |v| ==> Depth(v, 0, e) >= 1
       else
         |v| == 1 && !IsStructEnd(v[0])
  }

  /** Nesting depth depends only on the tokens counted. */
  lemma {:induction false} DepthShift(ts: seq<Token>, a: int, v: seq<Token>, s: int, e: int)
    requires 0 <= a && a + |v| <= |ts| && ts[a..a + |v|] == v
    requires 0 <= s <= e <= |v|
    ensures Depth(ts, a + s, a + e) == Depth(v, s, e)
    decreases e - s
  {
    if s < e {
      assert ts[a + s] == v[s];
      DepthShift(ts, a, v, s + 1, e);
    }
  }

  /** Scanning with `depth` containers open stops at the token that brings the
      count to zero, when no earlier token does. */
  lemma {:induction false} ScanEndCloses(ts: seq<Token>, i: int, j: int, depth: nat)
    requires 0 <= i <= j < |ts| && depth >= 1
    requires forall e :: i < e <= j ==> depth + Depth(ts, i, e) >= 1
    requires depth + Depth(ts, i, j + 1) == 0
    ensures ScanEnd(ts, i, depth) == j
    decreases j - i
  {
    if i < j {
      var d, next := depth + Delta(ts[i]), i + 1;
      assert d >= 1 by {
        assert Depth(ts, next, next) == 0;
        assert depth + Depth(ts, i, next) >= 1;
      }
      forall e | next < e <= j
        ensures d + Depth(ts, next, e) >= 1
      {
        assert depth + Depth(ts, i, e) >= 1;
      }
      ScanEndCloses(ts, next, j, d);
    }
  }

  /** `skipChildren` on the first token of a complete value leaves the cursor on
      the value's last token: the matching end of a container. */
  lemma SkipEndOnValue(ts: seq<Token>, i: int, v: seq<Token>)
    requires 0 <= i && i + |v| <= |ts| && ts[i..i + |v|] == v
    requires IsValue(v)
    ensures SkipEnd(ts, i) == i + |v| - 1
  {
    assert ts[i] == v[0];
    if IsStructStart(v[0]) {
      var j, next := i + |v| - 1, i + 1;
      assert Depth(v, 1, 1) == 0;
      assert j > i;
      forall e | next < e <= j
        ensures 1 + Depth(ts, next, e) >= 1
      {
        DepthShift(ts, i, v, 0, e - i);
        assert Depth(v, 0, e - i) >= 1;
      }
      DepthShift(ts, i, v, 0, |v|);
      ScanEndCloses(ts, next, j, 1);
    }
  }

  /** The slot the matcher assigned to `n`: its index in the list of names. */
  function IndexOf(names: seq<string>, n: string): (r: int)
    ensures -1 <= r < |names|
    ensures r >= 0 ==> names[r] == n
    ensures r < 0 <==> n !in names
    decreases |names|
  {
    if names == [] then -1
    else if names[0] == n then 0
    else var k := IndexOf(names[1..], n); if k < 0 then -1 else k + 1
  }

  /** `nextFieldName(FieldNameMatcher)` after the advance: the slot of a known name,
      or one of the sentinels. */
  function MatchCode(names: seq<string>, t: Option<Token>): (r: int)
    ensures r >= 0 <==> t.Some? && t.value.FieldName? && t.value.name in names
    ensures r >= 0 ==> r < |names| && names[r] == t.value.name
    ensures r == MATCH_UNKNOWN_NAME <==> t.Some? && t.value.FieldName? && t.value.name !in names
    ensures r == MATCH_END_OBJECT <==> t == Some(EndObject)
  {
    match t
    case Some(FieldName(n)) => if n in names then IndexOf(names, n) else MATCH_UNKNOWN_NAME
    case Some(EndObject) => MATCH_END_OBJECT
    case _ => MATCH_ODD_TOKEN
  }

  /** A parser positioned on a finished token sequence. */
  class Parser {
    const tokens: seq<Token>
    var pos: int

    ghost predicate Valid()
      reads this
    {
      ValidPos(tokens, pos)
    }

    constructor (ts: seq<Token>)
      ensures Valid() && tokens == ts && pos == -1
    {
      tokens := ts;
      pos := -1;
    }

    function Current(): Option<Token>
      reads this
    {
      CurrentAt(tokens, pos)
    }

    method NextToken() returns (t: Option<Token>)
      requires Valid()
      modifies this
      ensures Valid() && pos == Advance(tokens, old(pos)) && t == Current()
    {
      if pos < |tokens| {
        pos := pos + 1;
      }
      t := Current();
    }

    /** `nextFieldName(FieldNameMatcher)`: advance, then ask the matcher. */
    method NextFieldNameMatch(names: seq<string>) returns (ix: int)
      requires Valid()
      modifies this
      ensures Valid() && pos == Advance(tokens, old(pos))
      ensures ix == MatchCode(names, Current())
    {
      var t := NextToken();
      ix := MatchCode(names, t);
    }

    /** `nextFieldName()`: advance, then the name if the new token is a field name. */
    method NextFieldName() returns (n: Option<string>)
      requires Valid()
      modifies this
      ensures Valid() && pos == Advance(tokens, old(pos))
      ensures n.Some? <==> Current().Some? && Current().value.FieldName?
      ensures n.Some? ==> n.value == Current().value.name
    {
      var t := NextToken();
      if t.Some? && t.value.FieldName? {
        n := Some(t.value.name);
      } else {
        n := None;
      }
    }

    /** `skipChildren()`: on an object or array start, read up to its matching end. */
    method SkipChildren()
      requires Valid()
      modifies this
      ensures Valid() && pos == SkipEnd(tokens, old(pos))
    {
      var t := Current();
      if !(t.Some? && IsStructStart(t.value)) {
        return;
      }
      var open: nat := 1;
      while true
        invariant 0 <= pos < |tokens| && open >= 1
        invariant ScanEnd(tokens, pos + 1, open) == SkipEnd(tokens, old(pos))
        decreases |tokens| - pos
      {
        t := NextToken();
        if t.None? {
          return;
        }
        if IsStructStart(t.value) {
          open := open + 1;
        } else if IsStructEnd(t.value) {
          open := open - 1;
          if open == 0 {
            return;
          }
        }
      }
    }
  }
}
