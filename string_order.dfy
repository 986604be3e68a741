/** The natural ordering of Java strings (`String.compareTo`), and the sorted
    enumeration of a set of names that `TreeSet` and `Collections.sort` produce.
    A Java string is a sequence of UTF-16 code units, so a character outside
    the Basic Multilingual Plane compares as its surrogate pair. */
module StringOrder {

  /** The UTF-16 code units of one character: the character itself below
      U+10000, otherwise a high and a low surrogate. */
  function CodeUnits(c: char): (r: seq<int>)
    ensures |r| == 1 <==> c as int < 0x1_0000
    ensures |r| == 1 ==> r[0] == c as int
    ensures |r| == 2 ==> 0xD800 <= r[0] < 0xDC00 <= r[1] < 0xE000
    ensures |r| == 2 ==> (r[0] - 0xD800) * 0x400 + (r[1] - 0xDC00) + 0x1_0000 == c as int
    ensures |r| == 1 || |r| == 2
  {
    var v := c as int;
    if v < 0x1_0000 then [v]
    else [0xD800 + (v - 0x1_0000) / 0x400, 0xDC00 + (v - 0x1_0000) % 0x400]
  }

  /** The code units of a string, as a Java `String` holds them. */
  function Utf16(s: string): (r: seq<int>)
    ensures |r| >= |s|
    ensures s != [] ==> r == CodeUnits(s[0]) + Utf16(s[1..])
  {
    if s == [] then [] else CodeUnits(s[0]) + Utf16(s[1..])
  }

  /** Lexicographic order of code-unit sequences, a proper prefix first:
      `String.compareTo`. */
  predicate UnitsLess(a: seq<int>, b: seq<int>)
  {
    if |a| == 0 then |b| > 0
    else if |b| == 0 then false
    else if a[0] != b[0] then a[0] < b[0]
    else UnitsLess(a[1..], b[1..])
  }

  /** Where two characters first differ, the one whose code units come first:
      characters below the surrogate range keep their value, supplementary
      characters (whose high surrogate is in 0xD800..0xDBFF) come next, then
      the rest of the Basic Multilingual Plane. */
  function UnitKey(c: char): (r: int)
    ensures c as int < 0xD800 ==> r < 0xD800
    ensures c as int >= 0x1_0000 ==> 0xD800 <= r < 0x10_E000
    ensures 0xE000 <= c as int < 0x1_0000 ==> r >= 0x10_E000
  {
    var v := c as int;
    if v < 0xD800 then v
    else if v >= 0x1_0000 then v - 0x1_0000 + 0xD800
    else v + 0x10_0000
  }

  /** `a.compareTo(b) < 0`: at the first character where the two differ,
      the one with the smaller code units; otherwise a proper prefix first. */
  predicate Less(a: string, b: string)
  {
    if |a| == 0 then |b| > 0
    else if |b| == 0 then false
    else if a[0] != b[0] then UnitKey(a[0]) < UnitKey(b[0])
    else Less(a[1..], b[1..])
  }

  lemma {:induction false} LessIrreflexive(a: string)
    ensures !Less(a, a)
  {
    if |a| > 0 {
      LessIrreflexive(a[1..]);
    }
  }

  lemma {:induction false} LessAsymmetric(a: string, b: string)
    ensures Less(a, b) ==> !Less(b, a)
  {
    if |a| > 0 && |b| > 0 && a[0] == b[0] {
      LessAsymmetric(a[1..], b[1..]);
    }
  }

  lemma {:induction false} LessTransitive(a: string, b: string, c: string)
    ensures Less(a, b) && Less(b, c) ==> Less(a, c)
  {
    if |a| > 0 && |b| > 0 && |c| > 0 && a[0] == b[0] && b[0] == c[0] {
      LessTransitive(a[1..], b[1..], c[1..]);
    }
  }

  /** Two distinct strings are always ordered one way or the other. */
  lemma {:induction false} LessTotal(a: string, b: string)
    ensures a != b ==> Less(a, b) || Less(b, a)
  {
    if |a| > 0 && |b| > 0 && a[0] == b[0] {
      if a[1..] == b[1..] {
        assert a == [a[0]] + a[1..] && b == [b[0]] + b[1..];
      }
      LessTotal(a[1..], b[1..]);
    }
  }

  /** A common prefix of code units does not decide the order. */
  lemma {:induction false} UnitsLessCommonPrefix(u: seq<int>, s: seq<int>, t: seq<int>)
    ensures UnitsLess(u + s, u + t) == UnitsLess(s, t)
    decreases |u|
  {
    if u != [] {
      assert (u + s)[0] == u[0] == (u + t)[0];
      assert (u + s)[1..] == u[1..] + s && (u + t)[1..] == u[1..] + t;
      UnitsLessCommonPrefix(u[1..], s, t);
    } else {
      assert u + s == s && u + t == t;
    }
  }

  /** Two different characters are ordered by their first differing code
      unit, whatever follows them. */
  lemma FirstDifference(x: char, s: seq<int>, y: char, t: seq<int>)
    requires x != y
    ensures UnitsLess(CodeUnits(x) + s, CodeUnits(y) + t) <==> UnitKey(x) < UnitKey(y)
  {
    var u, w := CodeUnits(x), CodeUnits(y);
    assert (u + s)[0] == u[0] && (w + t)[0] == w[0];
    if |u| == 2 && |w| == 2 && u[0] == w[0] {
      assert (u + s)[1..] == [u[1]] + s && (w + t)[1..] == [w[1]] + t;
      assert ([u[1]] + s)[0] == u[1] && ([w[1]] + t)[0] == w[1];
    }
  }

  /** `Less` is `String.compareTo` on the code units of the two strings. */
  lemma {:induction false} LessIsCodeUnitOrder(a: string, b: string)
    ensures Less(a, b) <==> UnitsLess(Utf16(a), Utf16(b))
  {
    if a != [] && b != [] {
      if a[0] == b[0] {
        UnitsLessCommonPrefix(CodeUnits(a[0]), Utf16(a[1..]), Utf16(b[1..]));
        LessIsCodeUnitOrder(a[1..], b[1..]);
      } else {
        FirstDifference(a[0], Utf16(a[1..]), b[0], Utf16(b[1..]));
      }
    } else if a == [] && b != [] {
      assert |Utf16(b)| >= 1;
    } else if a != [] {
      assert |Utf16(a)| >= 1;
    }
  }

  /** Code-unit order is not scalar-value order: U+1F600 sorts before U+FFFF,
      because its high surrogate 0xD83D is below 0xFFFF. */
  lemma SupplementaryBeforeLateBmp()
    ensures Less("\U{1F600}", "\U{FFFF}")
    ensures "\U{FFFF}"[0] < "\U{1F600}"[0]
  {
  }

  /** Among characters of the Basic Multilingual Plane the order is the one of
      the characters themselves. */
  lemma BmpOrder(x: char, y: char)
    requires x as int < 0x1_0000 && y as int < 0x1_0000
    ensures Less([x], [y]) <==> x < y
  {
  }

  predicate StrictlySorted(s: seq<string>)
  {
    forall i, j :: 0 <= i < j < |s| ==> Less(s[i], s[j])
  }

  /** No name occurs twice. */
  predicate Distinct(s: seq<string>)
  {
    forall i, j :: 0 <= i < j < |s| ==> s[i] != s[j]
  }

  /** `s` lists exactly the members of `names`. */
  ghost predicate Enumerates(s: seq<string>, names: set<string>)
  {
    forall x :: x in s <==> x in names
  }

  /** Insertion of a new name into a strictly ascending list. */
  function Insert(s: seq<string>, x: string): (r: seq<string>)
    requires StrictlySorted(s) && x !in s
    ensures StrictlySorted(r)
    ensures forall y :: y in r <==> y in s || y == x
    ensures |r| == |s| + 1
  {
    if s == [] then [x]
    else if Less(x, s[0]) then
      assert forall j :: 0 < j < |s| ==> Less(x, s[j]) by {
        forall j | 0 < j < |s| ensures Less(x, s[j]) {
          LessTransitive(x, s[0], s[j]);
        }
      }
      [x] + s
    else
      LessTotal(x, s[0]);
      var t := Insert(s[1..], x);
      assert forall y :: y in t ==> Less(s[0], y) by {
        forall y | y in t ensures Less(s[0], y) {
          if y != x {
            var j :| 0 <= j < |s[1..]| && s[1..][j] == y;
            assert s[j + 1] == y;
          }
        }
      }
      [s[0]] + t
  }

  /** Every finite set of names has a strictly ascending enumeration. */
  lemma {:induction false} SortedEnumerationExists(names: set<string>)
    ensures exists s :: StrictlySorted(s) && Enumerates(s, names)
    decreases names
  {
    if names == {} {
      assert StrictlySorted([]) && Enumerates([], names);
    } else {
      var x :| x in names;
      SortedEnumerationExists(names - {x});
      var s :| StrictlySorted(s) && Enumerates(s, names - {x});
      var r := Insert(s, x);
      assert StrictlySorted(r) && Enumerates(r, names);
    }
  }

  /** The strictly ascending enumeration is unique: sorting is deterministic. */
  lemma {:induction false} SortedEnumerationUnique(a: seq<string>, b: seq<string>)
    requires StrictlySorted(a) && StrictlySorted(b)
    requires forall x :: x in a <==> x in b
    ensures a == b
    decreases |a|
  {
    assert a == [] <==> b == [] by {
      if a != [] { assert a[0] in b; }
      if b != [] { assert b[0] in a; }
    }
    if a != [] {
      if a[0] != b[0] {
        assert b[0] in b && a[0] in a;
        var i :| 0 <= i < |a| && a[i] == b[0];
        var j :| 0 <= j < |b| && b[j] == a[0];
        LessIrreflexive(a[0]);
        LessIrreflexive(b[0]);
        assert i > 0 && j > 0;
        LessAsymmetric(a[0], b[0]);
        assert false;
      }
      forall x ensures x in a[1..] <==> x in b[1..] {
        if x in a[1..] {
          var i :| 0 < i < |a| && a[i] == x;
          LessIrreflexive(a[0]);
          assert x != a[0];
          assert x in b;
        }
        if x in b[1..] {
          var j :| 0 < j < |b| && b[j] == x;
          LessIrreflexive(b[0]);
          assert x != b[0];
          assert x in a;
        }
      }
      SortedEnumerationUnique(a[1..], b[1..]);
      assert a == [a[0]] + a[1..] && b == [b[0]] + b[1..];
    }
  }

  /** A strictly ascending enumeration lists each member once. */
  lemma {:induction false} SortedEnumerationLength(s: seq<string>, names: set<string>)
    requires StrictlySorted(s) && Enumerates(s, names)
    ensures |s| == |names|
    decreases |s|
  {
    if s != [] {
      var t := s[1..];
      forall k | 0 <= k < |t| ensures t[k] != s[0] {
        LessIrreflexive(s[0]);
        assert Less(s[0], s[k + 1]);
      }
      forall x ensures x in t <==> x in names - {s[0]} {
        if x in names - {s[0]} {
          assert x in s;
          var i :| 0 <= i < |s| && s[i] == x;
          assert t[i - 1] == x;
        }
      }
      SortedEnumerationLength(t, names - {s[0]});
    }
  }

  /** The names of a set in ascending order: what iterating a `TreeSet` yields. */
  ghost function SortedNames(names: set<string>): (r: seq<string>)
    ensures StrictlySorted(r) && Enumerates(r, names)
    ensures |r| == |names|
  {
    SortedEnumerationExists(names);
    var s :| StrictlySorted(s) && Enumerates(s, names);
    SortedEnumerationLength(s, names);
    s
  }

  /** Copies a set of names into a sorted collection, one insertion per element. */
  method SortNames(names: set<string>) returns (r: seq<string>)
    ensures r == SortedNames(names)
  {
    var remaining := names;
    r := [];
    while remaining != {}
      invariant remaining <= names
      invariant StrictlySorted(r)
      invariant forall x :: x in r <==> x in names && x !in remaining
      decreases remaining
    {
      var x :| x in remaining;
      r := Insert(r, x);
      remaining := remaining - {x};
    }
    SortedEnumerationUnique(r, SortedNames(names));
  }

  /** `"a"` quoted, as `handleUnknown` appends each known name. */
  function Quote(name: string): string
  {
    "\"" + name + "\""
  }

  /** Quoted names separated by `", "`: the list in an unrecognized-property message. */
  function QuotedList(names: seq<string>): (r: string)
    ensures names == [] <==> r == []
    ensures names != [] ==> |Quote(names[0])| <= |r| && r[..|Quote(names[0])|] == Quote(names[0])
    ensures names != [] ==> var last := Quote(names[|names| - 1]);
      |last| <= |r| && r[|r| - |last|..] == last
    decreases |names|
  {
    if names == [] then ""
    else if |names| == 1 then Quote(names[0])
    else QuotedList(names[..|names| - 1]) + ", " + Quote(names[|names| - 1])
  }
}
