/** The value-reader contract shared by every decoder: `read` at the current token,
    the default `readNext` (advance one token, then `read`), the reader's value type,
    and the token descriptions used in error messages. */
module ValueReaders {
  import opened Wrappers
  import opened Tokens

  /** What a nested value reader hands back. Decoding of nested types is abstracted:
      the value is the run of tokens that make up the one JSON value it consumed. */
  type Value = seq<Token>

  /** A reader for values of `valueType` (the `_valueType` fixed at construction). */
  datatype ValueReader = ValueReader(valueType: string) {

    /** `read` with the cursor on the value's first token: the value's tokens, and the
        cursor left on its last token. An exhausted source yields no tokens. */
    function ReadAt(ts: seq<Token>, pos: int): (r: (Value, int))
      requires ValidPos(ts, pos)
      ensures ValidPos(ts, r.1) && pos <= r.1
      ensures CurrentAt(ts, pos).None? ==> r == ([], pos)
      ensures CurrentAt(ts, pos).Some? ==> |r.0| >= 1 && r.0[0] == ts[pos] && r.1 == SkipEnd(ts, pos)
      ensures CurrentAt(ts, pos).Some? && r.1 < |ts| ==> r.0 == ts[pos..r.1 + 1]
    {
      if 0 <= pos < |ts| then
        var e := SkipEnd(ts, pos);
        (if e < |ts| then ts[pos..e + 1] else ts[pos..], e)
      else
        ([], pos)
    }

    method Read(p: Parser) returns (v: Value)
      requires p.Valid()
      modifies p
      ensures p.Valid() && (v, p.pos) == ReadAt(p.tokens, old(p.pos))
    {
      var start := p.pos;
      if p.Current().None? {
        return [];
      }
      p.SkipChildren();
      if p.pos < |p.tokens| {
        v := p.tokens[start..p.pos + 1];
      } else {
        v := p.tokens[start..];
      }
    }

    /** The default `readNext`: exactly one `nextToken`, then `read` at the new position. */
    method ReadNext(p: Parser) returns (v: Value)
      requires p.Valid()
      modifies p
      ensures p.Valid() && (v, p.pos) == ReadAt(p.tokens, Advance(p.tokens, old(p.pos)))
    {
      var _ := p.NextToken();
      v := Read(p);
    }
  }

  /** On the first token of a complete value, `read` hands back exactly that
      value and leaves the cursor on its last token. */
  lemma ReadsOneValue(r: ValueReader, ts: seq<Token>, i: int, v: Value)
    requires 0 <= i && i + |v| <= |ts| && ts[i..i + |v|] == v
    requires IsValue(v)
    ensures r.ReadAt(ts, i) == (v, i + |v| - 1)
  {
    SkipEndOnValue(ts, i, v);
  }

  /** `_tokenDesc(p, t)`: how an error message describes the current token. */
  function TokenDesc(t: Option<Token>): (r: string)
    ensures r == "NULL" <==> t.None?
    ensures t.Some? && t.value.FieldName? ==>
      r == "JSON Field name '" + t.value.name + "'"
  {
    match t
    case None => "NULL"
    case Some(FieldName(n)) => "JSON Field name '" + n + "'"
    case Some(StartArray) => "JSON Array"
    case Some(StartObject) => "JSON Object"
    case Some(ValueFalse) => "'false'"
    case Some(ValueNull) => "'null'"
    case Some(ValueNumberFloat) => "JSON Number"
    case Some(ValueNumberInt(_)) => "JSON Number"
    case Some(ValueString(_)) => "JSON String"
    case Some(ValueTrue) => "'true'"
    case Some(other) => KindName(other)
  }

  /** Descriptions of tokens without a phrase of their own: an exhausted input is
      `NULL`, every number is a JSON Number whatever its kind or value, and the
      end tokens and the remaining kinds are described by their enum names. */
  lemma TokenDescFallbacks(n: int, t: Token)
    ensures TokenDesc(None) == "NULL"
    ensures TokenDesc(Some(ValueNumberInt(n))) == TokenDesc(Some(ValueNumberFloat))
    ensures t.EndObject? || t.EndArray? || t.NotAvailable? || t.ValueEmbeddedObject? ==>
      TokenDesc(Some(t)) == KindName(t)
  {
  }

  /** A field-name description names the field: two are equal only for equal names. */
  lemma FieldNameDescInjective(a: string, b: string)
    ensures TokenDesc(Some(FieldName(a))) == TokenDesc(Some(FieldName(b))) ==> a == b
  {
    var pre := "JSON Field name '";
    var da, db := TokenDesc(Some(FieldName(a))), TokenDesc(Some(FieldName(b)));
    if da == db {
      assert |a| == |b|;
      assert a == da[|pre|..|pre| + |a|];
      assert b == db[|pre|..|pre| + |b|];
    }
  }

  /** A field-name description is never the description of any other token. */
  lemma FieldNameDescDistinct(n: string, t: Option<Token>)
    requires !(t.Some? && t.value.FieldName?)
    ensures TokenDesc(t) != TokenDesc(Some(FieldName(n)))
  {
    var d := TokenDesc(Some(FieldName(n)));
    assert d[0] == 'J' && d[5] == 'F';
    var e := TokenDesc(t);
    if |e| > 5 && e[0] == 'J' {
      assert e[5] != 'F';
    }
  }
}
