// Character classes and string primitives shared by the release scripts.

module Text {

  // JavaScript's `\s`, which is also the set String.prototype.trim removes.
  predicate IsSpace(c: char) {
    || '\t' <= c <= '\r'
    || c == ' '
    || c == '\U{00A0}'
    || c == '\U{1680}'
    || '\U{2000}' <= c <= '\U{200A}'
    || c == '\U{2028}'
    || c == '\U{2029}'
    || c == '\U{202F}'
    || c == '\U{205F}'
    || c == '\U{3000}'
    || c == '\U{FEFF}'
  }

  // JavaScript's `\w`.
  predicate IsWord(c: char) {
    'a' <= c <= 'z' || 'A' <= c <= 'Z' || '0' <= c <= '9' || c == '_'
  }

  predicate AllSpace(s: string) {
    forall i | 0 <= i < |s| :: IsSpace(s[i])
  }

  predicate AllWord(s: string) {
    forall i | 0 <= i < |s| :: IsWord(s[i])
  }

  // The characters neither `.` nor a line may contain.
  predicate IsLineEnd(c: char) {
    c == '\n' || c == '\r' || c == '\U{2028}' || c == '\U{2029}'
  }

  function TrimStart(s: string): (t: string)
    ensures |t| <= |s| && t == s[|s| - |t|..]
    ensures AllSpace(s[..|s| - |t|])
    ensures t != "" ==> !IsSpace(t[0])
  {
    if s != "" && IsSpace(s[0]) then
      var t := TrimStart(s[1..]);
      assert s[..|s| - |t|] == [s[0]] + s[1..][..|s| - 1 - |t|];
      t
    else s
  }

  function TrimEnd(s: string): (t: string)
    ensures t <= s
    ensures AllSpace(s[|t|..])
    ensures t != "" ==> !IsSpace(t[|t| - 1])
  {
    if s != "" && IsSpace(s[|s| - 1]) then
      var t := TrimEnd(s[..|s| - 1]);
      assert s[|t|..] == s[..|s| - 1][|t|..] + [s[|s| - 1]];
      t
    else s
  }

  function Trim(s: string): (t: string) {
    TrimEnd(TrimStart(s))
  }

  // Trimming takes the spaces at both ends, however many there are, and
  // nothing else.
  lemma TrimIs(a: string, t: string, b: string)
    requires AllSpace(a) && AllSpace(b) && (t != "" ==> !IsSpace(t[0]) && !IsSpace(t[|t| - 1]))
    ensures Trim(a + (t + b)) == t
  {
    if t == "" {
      assert a + (t + b) == a + b;
      TrimsToNothing(a + b);
    } else {
      assert (t + b)[0] == t[0];
      TrimStartIs(a, t + b);
      TrimEndIs(t, b);
    }
  }

  lemma {:induction false} TrimStartIs(a: string, r: string)
    requires AllSpace(a) && (r != "" ==> !IsSpace(r[0]))
    ensures TrimStart(a + r) == r
  {
    if a == "" {
      assert a + r == r;
    } else {
      assert (a + r)[1..] == a[1..] + r;
      TrimStartIs(a[1..], r);
    }
  }

  lemma {:induction false} TrimEndIs(t: string, b: string)
    requires AllSpace(b) && t != "" && !IsSpace(t[|t| - 1])
    ensures TrimEnd(t + b) == t
  {
    if b == "" {
      assert t + b == t;
    } else {
      var n := |b| - 1;
      assert (t + b)[..|t + b| - 1] == t + b[..n] && (t + b)[|t + b| - 1] == b[n];
      TrimEndIs(t, b[..n]);
    }
  }

  predicate Blank(s: string) {
    AllSpace(s)
  }

  predicate HasText(s: string) {
    exists i | 0 <= i < |s| :: !IsSpace(s[i])
  }

  // Trimming leaves nothing of blank text and of no other.
  lemma TrimsToNothing(s: string)
    ensures Trim(s) == "" <==> Blank(s)
    ensures Blank(s) <==> !HasText(s)
  {
  }

  // String.prototype.indexOf; |s| stands for -1 (the needles are not empty).
  function Find(w: string, s: string): (i: nat)
    ensures i <= |s|
  {
    if s == "" || w <= s then 0 else 1 + Find(w, s[1..])
  }

  lemma {:induction false} FindFirst(w: string, s: string)
    requires w != ""
    ensures Find(w, s) < |s| ==> w <= s[Find(w, s)..]
    ensures forall k | 0 <= k < Find(w, s) :: !(w <= s[k..])
  {
    if s != "" && !(w <= s) {
      FindFirst(w, s[1..]);
      var i := Find(w, s[1..]);
      assert s[1 + i..] == s[1..][i..];
      forall k | 0 <= k < 1 + i ensures !(w <= s[k..]) {
        assert k > 0 ==> s[k..] == s[1..][k - 1..];
      }
    }
  }

  // Texts that are followed by the same mark, and hold none of its first
  // character, are equal if they stand at the same place.
  lemma SameFront(u: string, v: string, c: string, r: string)
    requires v + c <= u + (c + r) && c != ""
    requires forall i | 0 <= i < |u| :: u[i] != c[0]
    requires forall i | 0 <= i < |v| :: v[i] != c[0]
    ensures u == v
  {
    var a, b := v + c, u + (c + r);
    assert a[|v|] == c[0] && b[|u|] == c[0];
    assert forall i | 0 <= i < |v| :: a[i] == v[i] == b[i];
    assert forall i | 0 <= i < |u| :: b[i] == u[i];
    assert |u| == |v|;
    assert a[..|v|] == v && b[..|u|] == u;
  }

  lemma Assoc<T>(a: seq<T>, b: seq<T>, c: seq<T>)
    ensures (a + b) + c == a + (b + c)
  {
  }

  lemma FrontAndRest(w: string, s: string)
    requires w <= s
    ensures s == w + s[|w|..]
  {
  }

  function Flatten<T>(ss: seq<seq<T>>): seq<T> {
    if ss == [] then [] else ss[0] + Flatten(ss[1..])
  }

  // A string's spelling between single quotes: `'` and `\` are escaped.
  function Escape(x: string): (t: string)
    ensures |t| >= |x|
  {
    if x == "" then "" else EscapeChar(x[0]) + Escape(x[1..])
  }

  function EscapeChar(c: char): string {
    if c == '\'' || c == '\\' then ['\\', c] else [c]
  }
}
