// getNewName of scripts/rename-release-assets.js: the ordered table of file
// name patterns, as data with a matching relation.

module AssetNames {
  import opened Prelude
  import opened Text

  // Character classes: [\d.], \d, [\w.] and `.`, which stops at a line end.
  datatype Class = DigitsDots | Digits | WordDots | Any

  predicate In(c: char, k: Class) {
    match k
    case DigitsDots => '0' <= c <= '9' || c == '.'
    case Digits => '0' <= c <= '9'
    case WordDots => IsWord(c) || c == '.'
    case Any => !IsLineEnd(c)
  }

  // Lit(w): the literal w. Run(k): k+. Star(k): k*.
  // Maybe(a, k, b): (?:a k+ b)? for literals a and b.
  datatype Piece = Lit(w: string) | Run(k: Class) | Star(k: Class) | Maybe(open: string, k: Class, close: string)

  predicate AllIn(s: string, k: Class) {
    forall i | 0 <= i < |s| :: In(s[i], k)
  }

  function Weight(p: seq<Piece>): nat {
    if p == [] then 0 else (if p[0].Maybe? then 4 else 1) + Weight(p[1..])
  }

  // The optional group of a pattern that starts with one, spelled out.
  function Taken(p: seq<Piece>): (q: seq<Piece>)
    requires p != [] && p[0].Maybe?
    ensures Weight(q) < Weight(p)
  {
    var q1 := [Lit(p[0].close)] + p[1..];
    var q2 := [Run(p[0].k)] + q1;
    var q := [Lit(p[0].open)] + q2;
    assert q1[1..] == p[1..] && q2[1..] == q1 && q[1..] == q2;
    assert Weight(q1) == 1 + Weight(p[1..]) && Weight(q2) == 1 + Weight(q1);
    q
  }

  // Some way of dividing s among the pieces fits: the regular expression
  // between ^ and $, whatever order an engine tries the ways in.
  predicate Fits(p: seq<Piece>, s: string)
    decreases Weight(p)
  {
    if p == [] then s == ""
    else match p[0]
      case Lit(w) => w <= s && Fits(p[1..], s[|w|..])
      case Run(k) => exists n | 0 < n <= |s| :: AllIn(s[..n], k) && Fits(p[1..], s[n..])
      case Star(k) => exists n | 0 <= n <= |s| :: AllIn(s[..n], k) && Fits(p[1..], s[n..])
      case Maybe(_, _, _) => Fits(p[1..], s) || Fits(Taken(p), s)
  }

  // A table row: the new name is the application, the version and suffix.
  datatype Row = Row(pattern: seq<Piece>, suffix: string)

  const APP := "Fluux.Messenger_"
  const DEB := "fluux-messenger_"
  const PKG := "fluux-messenger-"
  const VERSION := Run(DigitsDots)

  // The bundle's version, optional since tauri-action v1.
  const APP_VERSION := Maybe("", DigitsDots, "_")

  function Table(): seq<Row> {
    [
      Row([Lit(APP), VERSION, Lit("_aarch64.dmg")], "_macOS_arm64.dmg"),
      Row([Lit(APP), VERSION, Lit("_x64.dmg")], "_macOS_x64.dmg"),
      Row([Lit(APP), APP_VERSION, Lit("aarch64.app.tar.gz")], "_macOS_arm64.app.tar.gz"),
      Row([Lit(APP), APP_VERSION, Lit("x64.app.tar.gz")], "_macOS_x64.app.tar.gz"),
      Row([Lit(APP), APP_VERSION, Lit("aarch64.app.tar.gz.sig")], "_macOS_arm64.app.tar.gz.sig"),
      Row([Lit(APP), APP_VERSION, Lit("x64.app.tar.gz.sig")], "_macOS_x64.app.tar.gz.sig"),
      Row([Lit(APP), VERSION, Lit("_x64-setup.exe")], "_Windows_x64-setup.exe"),
      Row([Lit(APP), VERSION, Lit("_x64-setup.exe.sig")], "_Windows_x64-setup.exe.sig"),
      Row([Lit(APP), VERSION, Lit("_x64_en-US.msi")], "_Windows_x64.msi"),
      Row([Lit(APP), VERSION, Lit("_x64_en-US.msi.sig")], "_Windows_x64.msi.sig"),
      Row([Lit(DEB), VERSION, Maybe("~", WordDots, ""), Lit("-"), Run(Digits), Lit("_amd64"), Star(Any), Lit(".deb")],
          "_Linux_x64.deb"),
      Row([Lit(DEB), VERSION, Maybe("~", WordDots, ""), Lit("-"), Run(Digits), Lit("_arm64"), Star(Any), Lit(".deb")],
          "_Linux_arm64.deb"),
      Row([Lit(PKG), VERSION, Lit("-"), VERSION, Maybe(".", WordDots, ""), Lit(".x86_64.rpm")], "_Linux_x64.rpm"),
      Row([Lit(PKG), VERSION, Lit("-"), VERSION, Maybe(".", WordDots, ""), Lit(".aarch64.rpm")], "_Linux_arm64.rpm"),
      Row([Lit(PKG), VERSION, Lit("-linux-x86_64.tar.gz")], "_Linux_x64.tar.gz"),
      Row([Lit(PKG), VERSION, Lit("-linux-aarch64.tar.gz")], "_Linux_arm64.tar.gz"),
      Row([Lit(PKG), VERSION, Lit("-linux-x86_64.flatpak")], "_Linux_x64.flatpak"),
      Row([Lit(PKG), VERSION, Lit("-linux-aarch64.flatpak")], "_Linux_arm64.flatpak"),
      Row([Lit(PKG), VERSION, Maybe("-", WordDots, ""), Lit("-source.tar.gz")], "_source.tar.gz")
    ]
  }

  // One leading v is dropped.
  function StripV(version: string): string {
    if "v" <= version then version[1..] else version
  }

  function NameFor(row: Row, version: string): string {
    "Fluux-Messenger_" + (StripV(version) + row.suffix)
  }

  function FirstMatch(rows: seq<Row>, oldName: string, version: string): Option<string> {
    if rows == [] then None
    else if Fits(rows[0].pattern, oldName) then Some(NameFor(rows[0], version))
    else FirstMatch(rows[1..], oldName, version)
  }

  function GetNewName(oldName: string, version: string): Option<string> {
    FirstMatch(Table(), oldName, version)
  }

  // ---- Every match starts and ends with the row's literals -------------------

  predicate EndsWith(s: string, w: string) {
    |w| <= |s| && s[|s| - |w|..] == w
  }

  // What is left for the pieces behind one that is no group is a suffix.
  lemma Advance(p: seq<Piece>, s: string) returns (n: nat)
    requires p != [] && !p[0].Maybe? && Fits(p, s)
    ensures n <= |s| && Fits(p[1..], s[n..])
    ensures p[0].Lit? ==> n == |p[0].w| && p[0].w <= s
    ensures p[0].Run? ==> 0 < n && AllIn(s[..n], p[0].k)
  {
    match p[0]
    case Lit(w) =>
      n := |w|;
    case Run(k) =>
      n :| 0 < n <= |s| && AllIn(s[..n], k) && Fits(p[1..], s[n..]);
    case Star(k) =>
      n :| 0 <= n <= |s| && AllIn(s[..n], k) && Fits(p[1..], s[n..]);
  }

  lemma {:induction false} LastLiteral(p: seq<Piece>, s: string)
    requires p != [] && p[|p| - 1].Lit? && Fits(p, s)
    ensures EndsWith(s, p[|p| - 1].w)
    decreases Weight(p)
  {
    var w := p[|p| - 1].w;
    if p[0].Maybe? {
      assert p[1..][|p| - 2] == p[|p| - 1];
      if Fits(p[1..], s) {
        LastLiteral(p[1..], s);
      } else {
        assert Taken(p)[|p| + 1] == p[|p| - 1];
        LastLiteral(Taken(p), s);
      }
    } else {
      var n := Advance(p, s);
      if |p| == 1 {
        assert p[1..] == [] && s[n..] == "";
        assert s == w;
      } else {
        hide Fits;
        assert p[1..][|p| - 2] == p[|p| - 1];
        LastLiteral(p[1..], s[n..]);
        assert s[n..][|s| - n - |w|..] == s[|s| - |w|..];
      }
    }
  }

  // ---- Reading a name from its end ---------------------------------------------

  function At(s: string, k: nat): char {
    if 0 < k <= |s| then s[|s| - k] else ' '
  }

  // The letter in front of 64: aarch64 and arm64 against x64 and x86_64.
  predicate Arm(c: char) {
    c == 'h' || c == 'm'
  }

  // The row an old or a new name belongs to, by a few of its last characters.
  function Decide(s: string): nat {
    if At(s, 1) == 'g' then
      if At(s, 2) == 'm' then (if Arm(At(s, 7)) then 0 else 1)
      else if At(s, 5) == 'z' then (if Arm(At(s, 18)) then 4 else 5)
      else if At(s, 5) == 'e' then 7
      else 9
    else if At(s, 1) == 'z' then
      if At(s, 8) == 'p' then (if Arm(At(s, 14)) then 2 else 3)
      else if At(s, 8) == '4' then (if Arm(At(s, 10)) then 15 else 14)
      else 18
    else if At(s, 1) == 'e' then 6
    else if At(s, 1) == 'i' then 8
    else if At(s, 1) == 'b' then (if Arm(At(s, 7)) then 11 else 10)
    else if At(s, 1) == 'm' then (if Arm(At(s, 7)) then 13 else 12)
    else if Arm(At(s, 11)) then 17
    else 16
  }

  lemma AtEnd(s: string, w: string)
    requires EndsWith(s, w)
    ensures forall k | 0 < k <= |w| :: At(s, k) == w[|w| - k]
  {
  }

  // No ending of the table is an ending of another row's names, except `.deb`.
  lemma UpdaterEndingDecides(i: nat, s: string)
    requires i < 10 && EndsWith(s, Endings()[i])
    ensures Decide(s) == i
  {
    if i < 6 {
      MacEndingDecides(i, s);
    } else {
      AtEnd(s, Endings()[i]);
      hide EndsWith, At;
    }
  }

  lemma MacEndingDecides(i: nat, s: string)
    requires i < 6 && EndsWith(s, Endings()[i])
    ensures Decide(s) == i
  {
    AtEnd(s, Endings()[i]);
    hide EndsWith, At;
    if i < 3 {} else {}
  }

  lemma LinuxEndingDecides(i: nat, s: string)
    requires 10 <= i < 19 && EndsWith(s, Endings()[i])
    ensures if i < 12 then Decide(s) == 10 || Decide(s) == 11 else Decide(s) == i
  {
    AtEnd(s, Endings()[i]);
    hide EndsWith, At;
    if i < 13 {} else if i < 16 {} else {}
  }

  function Endings(): seq<string> {
    [
      "_aarch64.dmg", "_x64.dmg",
      "aarch64.app.tar.gz", "x64.app.tar.gz", "aarch64.app.tar.gz.sig", "x64.app.tar.gz.sig",
      "_x64-setup.exe", "_x64-setup.exe.sig", "_x64_en-US.msi", "_x64_en-US.msi.sig",
      ".deb", ".deb", ".x86_64.rpm", ".aarch64.rpm",
      "-linux-x86_64.tar.gz", "-linux-aarch64.tar.gz", "-linux-x86_64.flatpak", "-linux-aarch64.flatpak",
      "-source.tar.gz"
    ]
  }

  function Suffixes(): seq<string> {
    [
      "_macOS_arm64.dmg", "_macOS_x64.dmg",
      "_macOS_arm64.app.tar.gz", "_macOS_x64.app.tar.gz", "_macOS_arm64.app.tar.gz.sig", "_macOS_x64.app.tar.gz.sig",
      "_Windows_x64-setup.exe", "_Windows_x64-setup.exe.sig", "_Windows_x64.msi", "_Windows_x64.msi.sig",
      "_Linux_x64.deb", "_Linux_arm64.deb", "_Linux_x64.rpm", "_Linux_arm64.rpm",
      "_Linux_x64.tar.gz", "_Linux_arm64.tar.gz", "_Linux_x64.flatpak", "_Linux_arm64.flatpak",
      "_source.tar.gz"
    ]
  }

  lemma RowEnds(i: nat)
    requires i < 19
    ensures |Table()| == |Endings()| == |Suffixes()| == 19 && Table()[i].suffix == Suffixes()[i]
    ensures var p := Table()[i].pattern; p != [] && p[0].Lit? && p[|p| - 1] == Lit(Endings()[i])
  {
  }

  lemma UpdaterSuffixDecides(i: nat, s: string)
    requires i < 10 && EndsWith(s, Suffixes()[i])
    ensures Decide(s) == i
  {
    AtEnd(s, Suffixes()[i]);
    hide EndsWith, At;
    if i < 3 {} else if i < 6 {} else {}
  }

  lemma LinuxSuffixDecides(i: nat, s: string)
    requires 10 <= i < 19 && EndsWith(s, Suffixes()[i])
    ensures Decide(s) == i
  {
    AtEnd(s, Suffixes()[i]);
    hide EndsWith, At;
    if i < 13 {} else if i < 16 {} else {}
  }

  // ---- The two Debian rows -------------------------------------------------------

  function DebTail(arch: string): seq<Piece> {
    [Lit("-"), Run(Digits), Lit(arch), Star(Any), Lit(".deb")]
  }

  function DebPattern(arch: string): seq<Piece> {
    [Lit(DEB), VERSION, Maybe("~", WordDots, "")] + DebTail(arch)
  }

  // d: the first hyphen behind the prefix; n: the digits of the release.
  predicate DebAt(t: string, d: nat, n: nat, arch: string) {
    && d + n + |arch| < |t| && 0 < n
    && (forall i | 0 <= i < d :: t[i] != '-')
    && t[d] == '-'
    && (forall i | d < i <= d + n :: In(t[i], Digits))
    && (forall i | 0 <= i < |arch| :: t[d + 1 + n + i] == arch[i])
  }

  predicate NoHyphen(s: string) {
    forall i | 0 <= i < |s| :: s[i] != '-'
  }

  lemma DebTailShape(arch: string, u: string) returns (n: nat)
    requires Fits(DebTail(arch), u)
    ensures DebAt(u, 0, n, arch)
  {
    hide Fits;
    var p := DebTail(arch);
    var a := Advance(p, u);
    assert p[1..] == [Run(Digits), Lit(arch), Star(Any), Lit(".deb")];
    n := Advance(p[1..], u[1..]);
    assert p[1..][1..] == [Lit(arch), Star(Any), Lit(".deb")];
    var b := Advance(p[1..][1..], u[1..][n..]);
    assert forall i | 0 <= i < n :: u[1..][..n][i] == u[1 + i];
    assert forall i | 0 <= i < |arch| :: u[1..][n..][i] == u[1 + n + i];
  }

  lemma DebShape(arch: string, s: string) returns (d: nat, n: nat)
    requires Fits(DebPattern(arch), s)
    ensures |s| >= 16 && DebAt(s[16..], d, n, arch)
  {
    hide Fits;
    var p, tail := DebPattern(arch), DebTail(arch);
    var group := [Maybe("~", WordDots, "")] + tail;
    assert p[1..] == [VERSION] + group && ([VERSION] + group)[1..] == group;
    var a := Advance(p, s);
    var t := s[16..];
    var v := Advance([VERSION] + group, t);
    assert NoHyphen(t[..v]);
    GroupCases(tail, t[v..]);
    if Fits(tail, t[v..]) {
      n := DebTailShape(arch, t[v..]);
      d := v;
    } else {
      n, d := DebGroupShape(arch, t, v);
    }
  }

  // The prerelease is there or not.
  lemma GroupCases(tail: seq<Piece>, u: string)
    requires Fits([Maybe("~", WordDots, "")] + tail, u)
    ensures Fits(tail, u) || Fits([Lit("~"), Run(WordDots), Lit("")] + tail, u)
  {
    var group := [Maybe("~", WordDots, "")] + tail;
    assert group[1..] == tail;
    assert Taken(group) == [Lit("~"), Run(WordDots), Lit("")] + tail;
  }

  lemma DebGroupShape(arch: string, t: string, v: nat) returns (n: nat, d: nat)
    requires v <= |t| && NoHyphen(t[..v]) && Fits([Lit("~"), Run(WordDots), Lit("")] + DebTail(arch), t[v..])
    ensures d <= |t| && NoHyphen(t[..d]) && DebAt(t[d..], 0, n, arch)
  {
    hide Fits;
    var tail := DebTail(arch);
    var q := [Lit("~"), Run(WordDots), Lit("")] + tail;
    assert q[1..] == [Run(WordDots), Lit("")] + tail && q[1..][1..] == [Lit("")] + tail && q[1..][1..][1..] == tail;
    var u := t[v..];
    var a := Advance(q, u);
    var w := Advance(q[1..], u[1..]);
    var b := Advance(q[1..][1..], u[1..][w..]);
    d := v + 1 + w;
    assert u[1..][w..][0..] == t[d..];
    n := DebTailShape(arch, t[d..]);
    assert NoHyphen(u[1..][..w]);
    assert t[..d] == t[..v] + ['~'] + u[1..][..w];
  }

  // The hyphen and the digits behind it are where they are.
  lemma DebIsOne(t: string, d: nat, n: nat, arch: string, d': nat, n': nat, arch': string)
    requires DebAt(t, d, n, arch) && DebAt(t, d', n', arch')
    requires arch != "" && arch' != "" && arch[0] == arch'[0] == '_'
    ensures d == d' && n == n'
  {
  }

  lemma DebArchIsOne(s: string)
    ensures !(Fits(DebPattern("_amd64"), s) && Fits(DebPattern("_arm64"), s))
  {
    hide Fits, DebPattern;
    assert "_amd64"[2] == 'm' && "_arm64"[2] == 'r';
    if Fits(DebPattern("_amd64"), s) && Fits(DebPattern("_arm64"), s) {
      var d, n := DebShape("_amd64", s);
      var d', n' := DebShape("_arm64", s);
      DebIsOne(s[16..], d, n, "_amd64", d', n', "_arm64");
    }
  }

  // ---- Table soundness ---------------------------------------------------------------

  lemma DebRows()
    ensures |Table()| == 19
    ensures Table()[10].pattern == DebPattern("_amd64") && Table()[11].pattern == DebPattern("_arm64")
  {
  }

  // A name fits at most one row, for all strings.
  lemma AtMostOneRow(i: nat, j: nat, s: string)
    requires i < |Table()| && j < |Table()|
    ensures Fits(Table()[i].pattern, s) && Fits(Table()[j].pattern, s) ==> i == j
  {
    hide Fits, Table, EndsWith, Endings, Decide, DebPattern;
    if Fits(Table()[i].pattern, s) && Fits(Table()[j].pattern, s) {
      DebRows();
      RowEnds(i);
      RowEnds(j);
      LastLiteral(Table()[i].pattern, s);
      LastLiteral(Table()[j].pattern, s);
      if i < 10 { UpdaterEndingDecides(i, s); } else { LinuxEndingDecides(i, s); }
      if j < 10 { UpdaterEndingDecides(j, s); } else { LinuxEndingDecides(j, s); }
      DebArchIsOne(s);
    }
  }

  lemma {:induction false} FirstMatchIs(rows: seq<Row>, s: string, v: string)
    ensures FirstMatch(rows, s, v).None? <==> forall i | 0 <= i < |rows| :: !Fits(rows[i].pattern, s)
    ensures FirstMatch(rows, s, v).Some? ==>
              exists i | 0 <= i < |rows| :: Fits(rows[i].pattern, s)
                  && FirstMatch(rows, s, v) == Some(NameFor(rows[i], v))
  {
    hide Fits, NameFor;
    if rows != [] && !Fits(rows[0].pattern, s) {
      FirstMatchIs(rows[1..], s, v);
      if FirstMatch(rows[1..], s, v).Some? {
        var i :| 0 <= i < |rows[1..]| && Fits(rows[1..][i].pattern, s)
            && FirstMatch(rows[1..], s, v) == Some(NameFor(rows[1..][i], v));
        assert rows[i + 1] == rows[1..][i];
      } else {
        assert forall i | 1 <= i < |rows| :: rows[i] == rows[1..][i - 1];
      }
    }
  }

  // The order of the rows is irrelevant: every arrangement of the table that
  // has the same rows renames every file the same way.
  lemma OrderIrrelevant(rows: seq<Row>, s: string, v: string)
    requires forall row :: row in rows <==> row in Table()
    ensures FirstMatch(rows, s, v) == GetNewName(s, v)
  {
    hide Fits, Table, NameFor;
    FirstMatchIs(rows, s, v);
    FirstMatchIs(Table(), s, v);
    if i :| 0 <= i < |rows| && Fits(rows[i].pattern, s) {
      assert rows[i] in Table();
      var k :| 0 <= k < |Table()| && Table()[k] == rows[i];
      var j :| 0 <= j < |Table()| && Fits(Table()[j].pattern, s) && GetNewName(s, v) == Some(NameFor(Table()[j], v));
      AtMostOneRow(k, j, s);
      var i' :| 0 <= i' < |rows| && Fits(rows[i'].pattern, s) && FirstMatch(rows, s, v) == Some(NameFor(rows[i'], v));
      assert rows[i'] in Table();
      var k' :| 0 <= k' < |Table()| && Table()[k'] == rows[i'];
      AtMostOneRow(k', j, s);
    } else {
      forall j | 0 <= j < |Table()| ensures !Fits(Table()[j].pattern, s) {
        assert Table()[j] in rows;
      }
    }
  }

  lemma FirstLiterals(i: nat)
    requires i < |Table()|
    ensures var p := Table()[i].pattern; p != [] && (p[0] == Lit(APP) || p[0] == Lit(DEB) || p[0] == Lit(PKG))
  {
  }

  lemma OldNameStarts(i: nat, s: string)
    requires i < |Table()| && Fits(Table()[i].pattern, s)
    ensures |s| > 5 && (s[0] == 'f' || s[5] == '.')
  {
    hide Table;
    FirstLiterals(i);
    var n := Advance(Table()[i].pattern, s);
    hide Fits;
    var w := Table()[i].pattern[0].w;
    assert APP[5] == '.' && DEB[0] == 'f' && PKG[0] == 'f';
    assert s[0] == w[0] && s[5] == w[5];
  }

  lemma NewNameStarts(row: Row, v: string)
    ensures |NameFor(row, v)| > 5 && NameFor(row, v)[0] == 'F' && NameFor(row, v)[5] == '-'
  {
  }

  // No produced name fits any row, so renaming twice is renaming once.
  lemma ProducedNameIsFinal(row: Row, v: string, w: string)
    ensures GetNewName(NameFor(row, v), w) == None
  {
    hide Table, NameFor, Fits;
    var n := NameFor(row, v);
    FirstMatchIs(Table(), n, w);
    NewNameStarts(row, v);
    if i :| 0 <= i < |Table()| && Fits(Table()[i].pattern, n) {
      OldNameStarts(i, n);
    }
  }

  lemma RenamedIsFinal(oldName: string, v: string, w: string)
    requires GetNewName(oldName, v).Some?
    ensures GetNewName(GetNewName(oldName, v).value, w) == None
  {
    hide Fits, Table, NameFor;
    FirstMatchIs(Table(), oldName, v);
    var i :| 0 <= i < |Table()| && GetNewName(oldName, v) == Some(NameFor(Table()[i], v));
    ProducedNameIsFinal(Table()[i], v, w);
  }

  // A produced name tells its row and its version.
  lemma NameDetermines(i: nat, v: string, j: nat, w: string)
    requires i < |Table()| && j < |Table()| && NameFor(Table()[i], v) == NameFor(Table()[j], w)
    ensures i == j && StripV(v) == StripV(w)
  {
    hide Table, Decide, Suffixes, StripV;
    DebRows();
    RowEnds(i);
    RowEnds(j);
    var n, s, t := NameFor(Table()[i], v), Suffixes()[i], Suffixes()[j];
    assert n[|n| - |s|..] == s && n[|n| - |t|..] == t;
    if i < 10 { UpdaterSuffixDecides(i, n); } else { LinuxSuffixDecides(i, n); }
    if j < 10 { UpdaterSuffixDecides(j, n); } else { LinuxSuffixDecides(j, n); }
    assert n[16..|n| - |s|] == StripV(v) && n[16..|n| - |t|] == StripV(w);
  }
}
