// The three regular expressions of parseChangelogTs, all of the shape
//   word \s* ' ( class+ ) '
// read as leftmost scans. No class contains the quote that must follow it and
// `'` is no space, so a match at a given index is unique and no backtracking
// can change it.

module FieldScan {
  import opened Text

  datatype Field = VersionField | DateField | TypeField

  function Word(f: Field): string {
    match f
    case VersionField => "version:"
    case DateField => "date:"
    case TypeField => "type:"
  }

  predicate InValue(f: Field, c: char) {
    if f.TypeField? then IsWord(c) else c != '\''
  }

  function ValueLen(f: Field, s: string): (n: nat)
    ensures n <= |s|
  {
    if s != "" && InValue(f, s[0]) then 1 + ValueLen(f, s[1..]) else 0
  }

  // s, the text behind the word, is optional space and an opening quote;
  // OpenLen counts them.
  predicate Opens(s: string) {
    s != "" && (s[0] == '\'' || (IsSpace(s[0]) && Opens(s[1..])))
  }

  function OpenLen(s: string): (n: nat)
    requires Opens(s)
    ensures 0 < n <= |s|
  {
    if s[0] == '\'' then 1 else 1 + OpenLen(s[1..])
  }

  // r, the text behind an opening quote, starts with a value and its quote.
  predicate ValueAhead(f: Field, r: string) {
    var n := ValueLen(f, r);
    0 < n < |r| && r[n] == '\''
  }

  predicate OpensAt(f: Field, s: string) {
    Word(f) <= s && Opens(s[|Word(f)|..])
  }

  // The text behind the opening quote.
  function Opened(f: Field, s: string): (r: string)
    requires OpensAt(f, s)
    ensures |r| < |s|
  {
    var t := s[|Word(f)|..];
    t[OpenLen(t)..]
  }

  predicate MatchAt(f: Field, s: string) {
    OpensAt(f, s) && ValueAhead(f, Opened(f, s))
  }

  // The capture group of a match at the front of s, and the text behind it.
  function Capture(f: Field, s: string): string
    requires MatchAt(f, s)
  {
    var r := Opened(f, s);
    r[..ValueLen(f, r)]
  }

  function Behind(f: Field, s: string): (r: string)
    requires MatchAt(f, s)
    ensures |r| < |s|
  {
    var r := Opened(f, s);
    r[ValueLen(f, r) + 1..]
  }

  // RegExp.prototype.exec: the first index that matches, |s| for null.
  function Next(f: Field, s: string): (i: nat)
    ensures i <= |s|
  {
    if s == "" || MatchAt(f, s) then 0 else 1 + Next(f, s[1..])
  }

  lemma {:induction false} NextMatches(f: Field, s: string)
    ensures Next(f, s) < |s| ==> MatchAt(f, s[Next(f, s)..])
    ensures forall k | 0 <= k < Next(f, s) :: !MatchAt(f, s[k..])
  {
    if s != "" && !MatchAt(f, s) {
      NextMatches(f, s[1..]);
      var i := Next(f, s[1..]);
      assert s[1 + i..] == s[1..][i..];
      forall k | 0 <= k < 1 + i ensures !MatchAt(f, s[k..]) {
        assert k > 0 ==> s[k..] == s[1..][k - 1..];
      }
    }
  }

  lemma BehindIsSuffix(f: Field, m: string)
    requires MatchAt(f, m)
    ensures Behind(f, m) == m[|m| - |Behind(f, m)|..]
  {
  }

  // exec on a regular expression whose lastIndex is last: the match, and the
  // lastIndex it leaves.
  lemma Advance(f: Field, s: string, last: nat) returns (m: string, last': nat)
    requires last <= |s| && Next(f, s[last..]) < |s[last..]|
    ensures m == s[last + Next(f, s[last..])..] == s[last..][Next(f, s[last..])..] && MatchAt(f, m)
    ensures last' == |s| - |Behind(f, m)| && last < last' <= |s| && s[last'..] == Behind(f, m)
  {
    hide MatchAt, Opened, Behind, Next;
    NextMatches(f, s[last..]);
    m := s[last..][Next(f, s[last..])..];
    assert m == s[last + Next(f, s[last..])..];
    BehindIsSuffix(f, m);
    last' := |s| - |Behind(f, m)|;
  }

  // ---- Scanning over a concatenation -----------------------------------

  // No match can begin inside u, whatever follows u.
  predicate NoStart(f: Field, u: string) {
    forall i | 0 <= i < |u| ::
      u[i] == Word(f)[0] ==> i + 1 < |u| && u[i + 1] != Word(f)[1]
  }

  lemma NotAt(f: Field, s: string)
    requires s == "" || s[0] != Word(f)[0] || (1 < |s| && s[1] != Word(f)[1])
    ensures !(Word(f) <= s) && !MatchAt(f, s)
  {
  }

  lemma {:induction false} SkipPlain(f: Field, u: string, r: string)
    requires NoStart(f, u)
    ensures Next(f, u + r) == |u| + Next(f, r)
  {
    if u == "" {
      assert u + r == r;
    } else {
      var t := u + r;
      assert u[0] == t[0] && (1 < |u| ==> u[1] == t[1]);
      NotAt(f, t);
      assert t[1..] == u[1..] + r;
      SkipPlain(f, u[1..], r);
    }
  }

  // x ends in the word and optional space: its closing quote could pass for
  // the opening quote of a value.
  predicate EndsInWord(f: Field, x: string) {
    x != "" && (WordAndSpace(f, x) || EndsInWord(f, x[1..]))
  }

  predicate WordAndSpace(f: Field, x: string) {
    Word(f) <= x && AllSpace(x[|Word(f)|..])
  }

  // Plain text that opens a quote before any escape opens its closing quote.
  lemma {:induction false} OpensQuoted(x: string, r: string)
    requires Opens(Escape(x) + "'" + r)
    ensures Escape(x) == x && AllSpace(x)
    ensures OpenLen(Escape(x) + "'" + r) == |x| + 1
  {
    var t := Escape(x) + "'" + r;
    if x == "" {
      assert t[0] == '\'';
    } else {
      assert t[0] == Escape(x)[0];
      assert x[0] != '\'' && x[0] != '\\';
      assert t[1..] == Escape(x[1..]) + "'" + r;
      OpensQuoted(x[1..], r);
      assert forall i | 0 < i < |x| :: x[i] == x[1..][i - 1];
    }
  }

  lemma {:induction false} EscapePrefix(w: string, x: string, r: string)
    requires forall i | 0 <= i < |w| :: w[i] != '\'' && w[i] != '\\'
    requires w <= Escape(x) + "'" + r
    ensures w <= x && Escape(x)[..|w|] == w && Escape(x)[|w|..] == Escape(x[|w|..])
  {
    if w != "" {
      var t := Escape(x) + "'" + r;
      assert w[0] == t[0];
      assert x != "";
      hide Escape;
      var y := Escape(x[1..]);
      assert t[1..] == y + "'" + r && w[1..] <= t[1..];
      EscapePrefix(w[1..], x[1..], r);
      assert x[|w|..] == x[1..][|w| - 1..];
      assert ([x[0]] + y)[|w|..] == y[|w| - 1..] && ([x[0]] + y)[..|w|] == [x[0]] + y[..|w| - 1];
      assert w == [w[0]] + w[1..];
    }
  }

  lemma WordIsPlain(f: Field)
    ensures forall i | 0 <= i < |Word(f)| :: Word(f)[i] != '\'' && Word(f)[i] != '\\'
    ensures 5 <= |Word(f)|
  {
  }

  lemma {:induction false} SpaceOpens(u: string, r: string)
    requires AllSpace(u)
    ensures Opens(u + "'" + r) && OpenLen(u + "'" + r) == |u| + 1
  {
    var t := u + "'" + r;
    if u == "" {
      assert t[0] == '\'';
    } else {
      assert t[1..] == u[1..] + "'" + r;
      SpaceOpens(u[1..], r);
      assert t[0] == u[0] && IsSpace(u[0]);
    }
  }

  lemma OpensAtQuoted(f: Field, x: string, r: string)
    requires OpensAt(f, Escape(x) + "'" + r)
    ensures WordAndSpace(f, x) && Escape(x) == x
    ensures Opened(f, Escape(x) + "'" + r) == r
  {
    QuotedIsWord(f, x, r);
    hide Escape, Word, Opens, OpenLen, AllSpace, MatchAt;
    var y := x[|Word(f)|..];
    SpaceOpens(y, r);
    assert x == Word(f) + y;
    BehindFront(Word(f), y, r);
  }

  lemma QuotedIsWord(f: Field, x: string, r: string)
    requires OpensAt(f, Escape(x) + "'" + r)
    ensures WordAndSpace(f, x) && Escape(x) == x
  {
    var w, e := Word(f), Escape(x);
    WordIsPlain(f);
    EscapePrefix(w, x, r);
    hide Escape, Word, Opens, OpenLen, AllSpace;
    var y := x[|w|..];
    assert e == e[..|w|] + e[|w|..] == w + Escape(y);
    BehindFront(w, Escape(y), r);
    OpensQuoted(y, r);
    assert x == w + y;
  }

  lemma BehindFront(w: string, a: string, r: string)
    ensures ((w + a) + "'" + r)[|w|..] == a + "'" + r
  {
  }

  lemma {:induction false} EscapePlain(x: string)
    requires forall i | 0 <= i < |x| :: x[i] != '\'' && x[i] != '\\'
    ensures Escape(x) == x
  {
    if x != "" {
      EscapePlain(x[1..]);
    }
  }

  // The converse of OpensAtQuoted.
  lemma WordOpens(f: Field, x: string, r: string)
    requires WordAndSpace(f, x)
    ensures OpensAt(f, x + "'" + r) && Opened(f, x + "'" + r) == r && Escape(x) == x
  {
    var w, t := Word(f), x + "'" + r;
    WordIsPlain(f);
    var u := x[|w|..];
    forall i | 0 <= i < |x| ensures x[i] != '\'' && x[i] != '\\' {
      assert x[i] == if i < |w| then w[i] else u[i - |w|];
    }
    EscapePlain(x);
    assert t[|w|..] == u + "'" + r;
    SpaceOpens(u, r);
    assert t[|w|..][|u| + 1..] == r;
  }

  lemma Step(f: Field, s: string)
    requires s != "" && !MatchAt(f, s)
    ensures Next(f, s) == 1 + Next(f, s[1..])
  {
  }

  lemma EscapeStep(x: string, r: string)
    requires x != ""
    ensures Escape(x) + r == EscapeChar(x[0]) + (Escape(x[1..]) + r)
    ensures |Escape(x)| == |EscapeChar(x[0])| + |Escape(x[1..])|
  {
    var e, t := EscapeChar(x[0]), Escape(x[1..]);
    assert Escape(x) == e + t;
    hide Escape, EscapeChar;
    Assoc(e, t, r);
  }

  // One step of a scan into escaped text in front of which no match stands.
  lemma StepEscaped(f: Field, x: string, r: string)
    requires x != "" && !MatchAt(f, Escape(x) + r)
    ensures Next(f, Escape(x) + r) == |Escape(x)| - |Escape(x[1..])| + Next(f, Escape(x[1..]) + r)
  {
    hide MatchAt;
    var t, t' := Escape(x) + r, Escape(x[1..]) + r;
    EscapeStep(x, r);
    Step(f, t);
    if |EscapeChar(x[0])| == 2 {
      assert t[1..] == [x[0]] + t';
      NotAt(f, t[1..]);
      Step(f, t[1..]);
      assert t[1..][1..] == t';
    } else {
      assert t[1..] == t';
    }
  }

  lemma StepQuoted(f: Field, x: string, r: string)
    requires x != "" && !(WordAndSpace(f, x) && ValueAhead(f, r))
    ensures Next(f, Escape(x) + "'" + r)
         == |Escape(x)| - |Escape(x[1..])| + Next(f, Escape(x[1..]) + "'" + r)
  {
    hide Next, WordAndSpace, ValueAhead, Escape, OpensAt;
    var t := Escape(x) + "'" + r;
    if OpensAt(f, t) {
      OpensAtQuoted(f, x, r);
    }
    assert !MatchAt(f, t);
    hide MatchAt;
    assert t == Escape(x) + ("'" + r) && Escape(x[1..]) + "'" + r == Escape(x[1..]) + ("'" + r);
    StepEscaped(f, x, "'" + r);
  }

  // A quoted literal hides no match, unless its closing quote opens one.
  lemma {:induction false} SkipQuoted(f: Field, x: string, r: string)
    requires !(EndsInWord(f, x) && ValueAhead(f, r))
    ensures Next(f, Escape(x) + "'" + r) == |Escape(x)| + 1 + Next(f, r)
  {
    if x == "" {
      var t := Escape(x) + "'" + r;
      assert t[0] == '\'' && t[1..] == r;
      assert !(Word(f) <= t);
    } else {
      StepQuoted(f, x, r);
      SkipQuoted(f, x[1..], r);
    }
  }

  // When it does open one, the scan stops at the word inside the literal.
  lemma {:induction false} HitQuoted(f: Field, x: string, r: string) returns (y: string)
    requires EndsInWord(f, x) && ValueAhead(f, r)
    ensures Next(f, Escape(x) + "'" + r) == |Escape(y)|
    ensures y < x && WordAndSpace(f, x[|y|..])
    ensures Escape(y) <= Escape(x)
  {
    if WordAndSpace(f, x) {
      y := "";
      WordOpens(f, x, r);
    } else {
      var z := HitQuoted(f, x[1..], r);
      y := [x[0]] + z;
      assert y[1..] == z;
      assert x[|y|..] == x[1..][|z|..];
      StepQuoted(f, x, r);
    }
  }

  lemma {:induction false} ValueRun(f: Field, v: string, r: string)
    requires forall i | 0 <= i < |v| :: InValue(f, v[i])
    requires r != "" && !InValue(f, r[0])
    ensures ValueLen(f, v + r) == |v|
  {
    if v == "" {
      assert v + r == r;
    } else {
      assert (v + r)[1..] == v[1..] + r;
      ValueRun(f, v[1..], r);
    }
  }

  lemma {:induction false} OpensLonger(t: string, u: string)
    requires Opens(t)
    ensures Opens(t + u) && OpenLen(t + u) == OpenLen(t)
  {
    if t[0] != '\'' {
      assert (t + u)[1..] == t[1..] + u;
      OpensLonger(t[1..], u);
    }
  }

  // A literal that is cut before its closing quote hides no match at all.
  lemma {:induction false} SkipCut(f: Field, y: string)
    ensures Next(f, Escape(y)) == |Escape(y)|
  {
    if y != "" {
      var t := Escape(y);
      NoMatchInCut(f, y);
      assert t + "" == t && Escape(y[1..]) + "" == Escape(y[1..]);
      StepEscaped(f, y, "");
      SkipCut(f, y[1..]);
    }
  }

  lemma NoMatchInCut(f: Field, y: string)
    ensures !MatchAt(f, Escape(y))
  {
    var t := Escape(y);
    if OpensAt(f, t) {
      var w := |Word(f)|;
      OpensLonger(t[w..], "'");
      assert (t + "'" + "")[w..] == t[w..] + "'";
      OpensAtQuoted(f, y, "");
      assert false;
    }
  }

  lemma {:induction false} NoQuoteNoMatch(f: Field, u: string)
    requires '\'' !in u
    ensures Next(f, u) == |u|
  {
    if u != "" {
      if OpensAt(f, u) {
        OpensNeedsQuote(u[|Word(f)|..]);
        assert false;
      }
      NoQuoteNoMatch(f, u[1..]);
    }
  }

  lemma {:induction false} OpensNeedsQuote(t: string)
    requires Opens(t)
    ensures '\'' in t
  {
    if t[0] != '\'' {
      OpensNeedsQuote(t[1..]);
    }
  }

  lemma QuoteEnds(f: Field)
    ensures !InValue(f, '\'')
  {
  }

  // A word, space and a quoted value in front of r.
  lemma FieldMatches(f: Field, x: string, v: string, r: string)
    requires WordAndSpace(f, x) && v != "" && forall i | 0 <= i < |v| :: InValue(f, v[i])
    ensures var m := x + "'" + (v + ("'" + r));
            MatchAt(f, m) && Capture(f, m) == v && Behind(f, m) == r && Next(f, m) == 0
  {
    var after := v + ("'" + r);
    hide WordAndSpace, OpensAt, Opened, Word, InValue;
    WordOpens(f, x, after);
    QuoteEnds(f);
    ValueRun(f, v, "'" + r);
    hide ValueLen;
    assert after[..|v|] == v && after[|v|] == '\'' && after[|v| + 1..] == r;
  }
}
