// Replacement templates: GetSubstitution of section 22.1.3.19.1 of ECMA-262,
// for patterns without named groups.

module Templates {

  datatype Match = Match(matched: string, before: string, behind: string, captures: seq<string>)

  predicate IsDigit(c: char) {
    '0' <= c <= '9'
  }

  function DigitOf(c: char): nat
    requires IsDigit(c)
  {
    (c - '0') as nat
  }

  // The capture a `$` at the front of t refers to, and how long the reference
  // is; number 0 stands for none. A second digit counts if the pattern has
  // that many captures.
  function Reference(t: string, captures: nat): (ref: (nat, nat))
    requires |t| >= 2
    ensures ref.0 <= captures && (ref.0 > 0 ==> ref.1 <= |t|) && ref.1 >= 2
  {
    if !IsDigit(t[1]) then (0, 2)
    else
      var one := DigitOf(t[1]);
      var two := if |t| > 2 && IsDigit(t[2]) then 10 * one + DigitOf(t[2]) else 0;
      if 1 <= two <= captures then (two, 3) else if one <= captures then (one, 2) else (0, 2)
  }

  function Expand(t: string, m: Match): string {
    if t == "" then ""
    else if t[0] != '$' || |t| == 1 then [t[0]] + Expand(t[1..], m)
    else if t[1] == '$' then "$" + Expand(t[2..], m)
    else if t[1] == '&' then m.matched + Expand(t[2..], m)
    else if t[1] == '`' then m.before + Expand(t[2..], m)
    else if t[1] == '\'' then m.behind + Expand(t[2..], m)
    else
      var (number, length) := Reference(t, |m.captures|);
      if number == 0 then "$" + Expand(t[1..], m) else m.captures[number - 1] + Expand(t[length..], m)
  }

  predicate NoDollar(s: string) {
    forall i | 0 <= i < |s| :: s[i] != '$'
  }

  // Text without a dollar sign stands for itself.
  lemma {:induction false} PlainFront(s: string, t: string, m: Match)
    requires NoDollar(s)
    ensures Expand(s + t, m) == s + Expand(t, m)
  {
    if s == "" {
      assert s + t == t;
    } else {
      assert (s + t)[1..] == s[1..] + t;
      PlainFront(s[1..], t, m);
    }
  }

  lemma PlainText(s: string, m: Match)
    requires NoDollar(s)
    ensures Expand(s, m) == s
  {
    PlainFront(s, "", m);
    assert s + "" == s && Expand("", m) == "";
  }

  // `$1` is the first capture, digits behind it or not.
  lemma FirstCapture(t: string, m: Match)
    requires 1 <= |m.captures| < 10
    ensures Expand("$1" + t, m) == m.captures[0] + Expand(t, m)
  {
    var s := "$1" + t;
    assert s[0] == '$' && s[1] == '1' && s[2..] == t;
    assert DigitOf('1') == 1;
    assert Reference(s, |m.captures|) == (1, 2);
  }

  lemma SecondCapture(m: Match)
    requires 2 <= |m.captures| < 10
    ensures Expand("$2", m) == m.captures[1]
  {
    var s := "$2";
    assert DigitOf('2') == 2 && s[1] == '2' && s[2..] == "";
    assert Reference(s, |m.captures|) == (2, 2);
  }

  // The references that are no captures.
  lemma Symbols(t: string, m: Match)
    ensures Expand("$$" + t, m) == "$" + Expand(t, m)
    ensures Expand("$&" + t, m) == m.matched + Expand(t, m)
    ensures Expand("$`" + t, m) == m.before + Expand(t, m)
    ensures Expand("$'" + t, m) == m.behind + Expand(t, m)
  {
    forall c: char {
      Head(c, t);
    }
    assert "$$" == ['$', '$'] && "$&" == ['$', '&'] && "$`" == ['$', '`'] && "$'" == ['$', '\''];
  }

  lemma Head(c: char, t: string)
    ensures var s := ['$', c] + t; s[0] == '$' && s[1] == c && s[2..] == t && s[1..] == [c] + t
  {
  }

  // A one-digit reference: the capture of that number, unless the digit behind
  // it makes a two-digit one.
  lemma OneDigit(d: char, t: string, m: Match)
    requires IsDigit(d) && 1 <= DigitOf(d) <= |m.captures|
    requires t != "" && IsDigit(t[0]) ==> 10 * DigitOf(d) + DigitOf(t[0]) > |m.captures|
    ensures Expand(['$', d] + t, m) == m.captures[DigitOf(d) - 1] + Expand(t, m)
  {
    var s := ['$', d] + t;
    Head(d, t);
    assert t != "" ==> s[2] == t[0];
    assert Reference(s, |m.captures|) == (DigitOf(d), 2);
  }

  // A two-digit reference: the capture of that number, if the pattern has it.
  lemma TwoDigits(d: char, e: char, t: string, m: Match)
    requires IsDigit(d) && IsDigit(e) && 1 <= 10 * DigitOf(d) + DigitOf(e) <= |m.captures|
    ensures Expand(['$', d, e] + t, m) == m.captures[10 * DigitOf(d) + DigitOf(e) - 1] + Expand(t, m)
  {
    var s := ['$', d, e] + t;
    assert s[0] == '$' && s[1] == d && s[2] == e && s[3..] == t;
    assert Reference(s, |m.captures|) == (10 * DigitOf(d) + DigitOf(e), 3);
  }

  // A dollar sign in front of anything else stands for itself: a number the
  // pattern has no capture for, any other character, the template's end.
  lemma NoReference(t: string, m: Match)
    requires t == "" || t[0] !in {'$', '&', '`', '\''}
    requires t != "" && IsDigit(t[0]) ==>
               && !(1 <= DigitOf(t[0]) <= |m.captures|)
               && (|t| > 1 && IsDigit(t[1]) ==> !(1 <= 10 * DigitOf(t[0]) + DigitOf(t[1]) <= |m.captures|))
    ensures Expand("$" + t, m) == "$" + Expand(t, m)
  {
    var s := "$" + t;
    assert s[0] == '$' && s[1..] == t;
    assert t != "" ==> s[1] == t[0];
    assert |t| > 1 ==> s[2] == t[1];
    if t != "" {
      assert Reference(s, |m.captures|).0 == 0;
    }
  }
}
