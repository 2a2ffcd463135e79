// The table of scripts/rename-release-assets.js row by row: exactly which file
// names each row renames, and to what.

module AssetSpellings {
  import opened Prelude
  import opened Text
  import opened AssetNames
  import opened RenameProtocol

  // ---- Patterns from their end -------------------------------------------------------

  lemma FitsEnd(w: string, s: string)
    ensures Fits([Lit(w)], s) <==> s == w
  {
    assert [Lit(w)][1..] == [];
    assert w <= s ==> s == w + s[|w|..];
    assert w[|w|..] == "";
  }

  lemma FitsLit(w: string, p: seq<Piece>, s: string)
    ensures Fits([Lit(w)] + p, w + s) <==> Fits(p, s)
    ensures forall t | Fits([Lit(w)] + p, t) :: w <= t && Fits(p, t[|w|..])
  {
    assert ([Lit(w)] + p)[1..] == p && (w + s)[|w|..] == s;
  }

  lemma FitsRun(k: Class, p: seq<Piece>, r: string, s: string)
    requires r != "" && AllIn(r, k) && Fits(p, s)
    ensures Fits([Run(k)] + p, r + s)
  {
    assert ([Run(k)] + p)[1..] == p && (r + s)[..|r|] == r && (r + s)[|r|..] == s;
  }

  lemma RunFits(k: Class, p: seq<Piece>, t: string) returns (r: string, s: string)
    requires Fits([Run(k)] + p, t)
    ensures t == r + s && r != "" && AllIn(r, k) && Fits(p, s)
  {
    assert ([Run(k)] + p)[1..] == p;
    var n :| 0 < n <= |t| && AllIn(t[..n], k) && Fits(p, t[n..]);
    r, s := t[..n], t[n..];
  }

  lemma FitsStar(k: Class, p: seq<Piece>, r: string, s: string)
    requires AllIn(r, k) && Fits(p, s)
    ensures Fits([Star(k)] + p, r + s)
  {
    assert ([Star(k)] + p)[1..] == p && (r + s)[..|r|] == r && (r + s)[|r|..] == s;
  }

  lemma StarFits(k: Class, p: seq<Piece>, t: string) returns (r: string, s: string)
    requires Fits([Star(k)] + p, t)
    ensures t == r + s && AllIn(r, k) && Fits(p, s)
  {
    assert ([Star(k)] + p)[1..] == p;
    var n :| 0 <= n <= |t| && AllIn(t[..n], k) && Fits(p, t[n..]);
    r, s := t[..n], t[n..];
  }

  lemma FitsMaybe(open: string, k: Class, close: string, p: seq<Piece>, t: string)
    ensures Fits([Maybe(open, k, close)] + p, t)
       <==> Fits(p, t) || Fits([Lit(open)] + ([Run(k)] + ([Lit(close)] + p)), t)
  {
    var g := [Maybe(open, k, close)] + p;
    assert g[1..] == p;
    assert Taken(g) == [Lit(open)] + ([Run(k)] + ([Lit(close)] + p));
  }

  // ---- Names, spelled out ----------------------------------------------------------------

  predicate Dotted(d: string) {
    d != "" && forall i | 0 <= i < |d| :: '0' <= d[i] <= '9' || d[i] == '.'
  }

  predicate Number(n: string) {
    n != "" && forall i | 0 <= i < |n| :: '0' <= n[i] <= '9'
  }

  // A prerelease part: nothing, or the mark and word characters and dots.
  predicate Extra(mark: char, x: string) {
    x != "" ==> |x| > 1 && x[0] == mark && forall i | 1 <= i < |x| :: IsWord(x[i]) || x[i] == '.'
  }

  predicate InOneLine(x: string) {
    forall i | 0 <= i < |x| :: !IsLineEnd(x[i])
  }

  ghost predicate Versioned(head: string, tail: string, s: string) {
    exists d :: Dotted(d) && s == head + (d + tail)
  }

  // Older updater bundles leave the version out.
  ghost predicate MaybeVersioned(head: string, tail: string, s: string) {
    s == head + tail || exists d :: Dotted(d) && s == head + (d + ("_" + tail))
  }

  ghost predicate Deb(arch: string, s: string) {
    exists d, x, n, more ::
      && Dotted(d) && Extra('~', x) && Number(n) && InOneLine(more)
      && s == "fluux-messenger_" + (d + (x + ("-" + (n + (arch + (more + ".deb"))))))
  }

  ghost predicate Rpm(tail: string, s: string) {
    exists d, n, x ::
      Dotted(d) && Dotted(n) && Extra('.', x) && s == "fluux-messenger-" + (d + ("-" + (n + (x + tail))))
  }

  ghost predicate Source(s: string) {
    exists d, x :: Dotted(d) && Extra('-', x) && s == "fluux-messenger-" + (d + (x + "-source.tar.gz"))
  }

  // The build's file name in each row.
  ghost predicate Spelled(i: nat, s: string) {
    match i
    case 0 => Versioned("Fluux.Messenger_", "_aarch64.dmg", s)
    case 1 => Versioned("Fluux.Messenger_", "_x64.dmg", s)
    case 2 => MaybeVersioned("Fluux.Messenger_", "aarch64.app.tar.gz", s)
    case 3 => MaybeVersioned("Fluux.Messenger_", "x64.app.tar.gz", s)
    case 4 => MaybeVersioned("Fluux.Messenger_", "aarch64.app.tar.gz.sig", s)
    case 5 => MaybeVersioned("Fluux.Messenger_", "x64.app.tar.gz.sig", s)
    case 6 => Versioned("Fluux.Messenger_", "_x64-setup.exe", s)
    case 7 => Versioned("Fluux.Messenger_", "_x64-setup.exe.sig", s)
    case 8 => Versioned("Fluux.Messenger_", "_x64_en-US.msi", s)
    case 9 => Versioned("Fluux.Messenger_", "_x64_en-US.msi.sig", s)
    case 10 => Deb("_amd64", s)
    case 11 => Deb("_arm64", s)
    case 12 => Rpm(".x86_64.rpm", s)
    case 13 => Rpm(".aarch64.rpm", s)
    case 14 => Versioned("fluux-messenger-", "-linux-x86_64.tar.gz", s)
    case 15 => Versioned("fluux-messenger-", "-linux-aarch64.tar.gz", s)
    case 16 => Versioned("fluux-messenger-", "-linux-x86_64.flatpak", s)
    case 17 => Versioned("fluux-messenger-", "-linux-aarch64.flatpak", s)
    case 18 => Source(s)
    case _ => false
  }

  // What the release calls it.
  function ReleaseName(i: nat, version: string): string {
    "Fluux-Messenger_" + (version + match i
      case 0 => "_macOS_arm64.dmg"
      case 1 => "_macOS_x64.dmg"
      case 2 => "_macOS_arm64.app.tar.gz"
      case 3 => "_macOS_x64.app.tar.gz"
      case 4 => "_macOS_arm64.app.tar.gz.sig"
      case 5 => "_macOS_x64.app.tar.gz.sig"
      case 6 => "_Windows_x64-setup.exe"
      case 7 => "_Windows_x64-setup.exe.sig"
      case 8 => "_Windows_x64.msi"
      case 9 => "_Windows_x64.msi.sig"
      case 10 => "_Linux_x64.deb"
      case 11 => "_Linux_arm64.deb"
      case 12 => "_Linux_x64.rpm"
      case 13 => "_Linux_arm64.rpm"
      case 14 => "_Linux_x64.tar.gz"
      case 15 => "_Linux_arm64.tar.gz"
      case 16 => "_Linux_x64.flatpak"
      case 17 => "_Linux_arm64.flatpak"
      case 18 => "_source.tar.gz"
      case _ => "")
  }

  // ---- Each kind of row -----------------------------------------------------------------

  lemma VersionedFits(head: string, tail: string, s: string)
    ensures Fits([Lit(head)] + ([Run(DigitsDots)] + [Lit(tail)]), s) <==> Versioned(head, tail, s)
  {
    var p, q := [Run(DigitsDots)] + [Lit(tail)], [Lit(tail)];
    hide Fits;
    if Fits([Lit(head)] + p, s) {
      FitsLit(head, p, "");
      var d, u := RunFits(DigitsDots, q, s[|head|..]);
      FitsEnd(tail, u);
      assert s == head + s[|head|..];
      assert Dotted(d);
    }
    if Versioned(head, tail, s) {
      var d :| Dotted(d) && s == head + (d + tail);
      FitsEnd(tail, tail);
      FitsRun(DigitsDots, q, d, tail);
      FitsLit(head, p, d + tail);
    }
  }

  lemma MaybeVersionedFits(head: string, tail: string, s: string)
    ensures Fits([Lit(head)] + ([Maybe("", DigitsDots, "_")] + [Lit(tail)]), s) <==> MaybeVersioned(head, tail, s)
  {
    var q := [Lit(tail)];
    var p, g := [Maybe("", DigitsDots, "_")] + q, [Run(DigitsDots)] + ([Lit("_")] + q);
    hide Fits;
    if Fits([Lit(head)] + p, s) {
      FitsLit(head, p, "");
      var t := s[|head|..];
      assert s == head + t;
      FitsMaybe("", DigitsDots, "_", q, t);
      if Fits(q, t) {
        FitsEnd(tail, t);
      } else {
        FitsLit("", g, "");
        assert t[0..] == t;
        var d, u := RunFits(DigitsDots, [Lit("_")] + q, t);
        FitsLit("_", q, "");
        FitsEnd(tail, u[1..]);
        assert u == "_" + u[1..];
        assert Dotted(d);
      }
    }
    if s == head + tail {
      FitsEnd(tail, tail);
      FitsMaybe("", DigitsDots, "_", q, tail);
      FitsLit(head, p, tail);
    }
    if d :| Dotted(d) && s == head + (d + ("_" + tail)) {
      FitsEnd(tail, tail);
      FitsLit("_", q, tail);
      FitsRun(DigitsDots, [Lit("_")] + q, d, "_" + tail);
      FitsLit("", g, d + ("_" + tail));
      assert "" + (d + ("_" + tail)) == d + ("_" + tail);
      FitsMaybe("", DigitsDots, "_", q, d + ("_" + tail));
      FitsLit(head, p, d + ("_" + tail));
    }
  }

  // An optional prerelease part in front of whatever fits.
  lemma ExtraFits(mark: char, p: seq<Piece>, x: string, s: string)
    requires Extra(mark, x) && Fits(p, s)
    ensures Fits([Maybe([mark], WordDots, "")] + p, x + s)
  {
    hide Fits;
    FitsMaybe([mark], WordDots, "", p, x + s);
    if x == "" {
      assert x + s == s;
    } else {
      GroupFits(mark, p, x[1..], s);
      assert [mark] + (x[1..] + s) == x + s;
    }
  }

  lemma GroupFits(mark: char, p: seq<Piece>, r: string, s: string)
    requires r != "" && AllIn(r, WordDots) && Fits(p, s)
    ensures Fits([Lit([mark])] + ([Run(WordDots)] + ([Lit("")] + p)), [mark] + (r + s))
  {
    hide Fits, AllIn;
    FitsLit("", p, s);
    assert "" + s == s;
    FitsRun(WordDots, [Lit("")] + p, r, s);
    FitsLit([mark], [Run(WordDots)] + ([Lit("")] + p), r + s);
  }

  lemma FitsExtra(mark: char, p: seq<Piece>, t: string) returns (x: string, s: string)
    requires Fits([Maybe([mark], WordDots, "")] + p, t)
    ensures t == x + s && Extra(mark, x) && Fits(p, s)
  {
    hide Fits;
    FitsMaybe([mark], WordDots, "", p, t);
    if Fits(p, t) {
      x, s := "", t;
    } else {
      FitsLit([mark], [Run(WordDots)] + ([Lit("")] + p), "");
      var r, u := RunFits(WordDots, [Lit("")] + p, t[1..]);
      FitsLit("", p, "");
      assert u[0..] == u;
      x, s := [mark] + r, u;
    }
  }

  lemma SourceFits(s: string)
    ensures Fits([Lit("fluux-messenger-")]
                 + ([Run(DigitsDots)] + ([Maybe("-", WordDots, "")] + [Lit("-source.tar.gz")])), s)
       <==> Source(s)
  {
    var head, tail := "fluux-messenger-", "-source.tar.gz";
    var q := [Maybe("-", WordDots, "")] + [Lit(tail)];
    var p := [Run(DigitsDots)] + q;
    hide Fits;
    if Fits([Lit(head)] + p, s) {
      FitsLit(head, p, "");
      var d, u := RunFits(DigitsDots, q, s[|head|..]);
      var x, w := FitsExtra('-', [Lit(tail)], u);
      FitsEnd(tail, w);
      assert s == head + s[|head|..];
      assert Dotted(d);
    }
    if d, x :| Dotted(d) && Extra('-', x) && s == head + (d + (x + tail)) {
      FitsEnd(tail, tail);
      ExtraFits('-', [Lit(tail)], x, tail);
      FitsRun(DigitsDots, q, d, x + tail);
      FitsLit(head, p, d + (x + tail));
    }
  }

  lemma RpmFits(tail: string, s: string)
    ensures Fits([Lit("fluux-messenger-")]
                 + ([Run(DigitsDots)] + ([Lit("-")]
                 + ([Run(DigitsDots)] + ([Maybe(".", WordDots, "")] + [Lit(tail)])))), s)
       <==> Rpm(tail, s)
  {
    var head := "fluux-messenger-";
    var q3 := [Maybe(".", WordDots, "")] + [Lit(tail)];
    var q2 := [Run(DigitsDots)] + q3;
    var q1 := [Lit("-")] + q2;
    var p := [Run(DigitsDots)] + q1;
    hide Fits;
    if Fits([Lit(head)] + p, s) {
      FitsLit(head, p, "");
      var d, u := RunFits(DigitsDots, q1, s[|head|..]);
      FitsLit("-", q2, "");
      var n, w := RunFits(DigitsDots, q3, u[1..]);
      var x, y := FitsExtra('.', [Lit(tail)], w);
      FitsEnd(tail, y);
      assert s == head + s[|head|..] && u == "-" + u[1..];
      assert Dotted(d) && Dotted(n);
    }
    if d, n, x :| Dotted(d) && Dotted(n) && Extra('.', x) && s == head + (d + ("-" + (n + (x + tail)))) {
      FitsEnd(tail, tail);
      ExtraFits('.', [Lit(tail)], x, tail);
      FitsRun(DigitsDots, q3, n, x + tail);
      FitsLit("-", q2, n + (x + tail));
      FitsRun(DigitsDots, q1, d, "-" + (n + (x + tail)));
      FitsLit(head, p, d + ("-" + (n + (x + tail))));
    }
  }

  lemma DebFits(arch: string, s: string)
    ensures Fits([Lit("fluux-messenger_")]
                 + ([Run(DigitsDots)] + ([Maybe("~", WordDots, "")]
                 + ([Lit("-")] + ([Run(Digits)] + ([Lit(arch)] + ([Star(Any)] + [Lit(".deb")])))))), s)
       <==> Deb(arch, s)
  {
    var head := "fluux-messenger_";
    var q5 := [Star(Any)] + [Lit(".deb")];
    var q4 := [Lit(arch)] + q5;
    var q3 := [Run(Digits)] + q4;
    var q2 := [Lit("-")] + q3;
    var q1 := [Maybe("~", WordDots, "")] + q2;
    var p := [Run(DigitsDots)] + q1;
    hide Fits;
    if Fits([Lit(head)] + p, s) {
      FitsLit(head, p, "");
      var d, u := RunFits(DigitsDots, q1, s[|head|..]);
      var x, w := FitsExtra('~', q2, u);
      FitsLit("-", q3, "");
      var n, y := RunFits(Digits, q4, w[1..]);
      FitsLit(arch, q5, "");
      var more, z := StarFits(Any, [Lit(".deb")], y[|arch|..]);
      FitsEnd(".deb", z);
      assert s == head + s[|head|..] && w == "-" + w[1..] && y == arch + y[|arch|..];
      assert Dotted(d) && Number(n) && InOneLine(more);
    }
    if d, x, n, more :|
      && Dotted(d) && Extra('~', x) && Number(n) && InOneLine(more)
      && s == head + (d + (x + ("-" + (n + (arch + (more + ".deb")))))) {
      FitsEnd(".deb", ".deb");
      FitsStar(Any, [Lit(".deb")], more, ".deb");
      FitsLit(arch, q5, more + ".deb");
      FitsRun(Digits, q4, n, arch + (more + ".deb"));
      FitsLit("-", q3, n + (arch + (more + ".deb")));
      ExtraFits('~', q2, x, "-" + (n + (arch + (more + ".deb"))));
      FitsRun(DigitsDots, q1, d, x + ("-" + (n + (arch + (more + ".deb")))));
      FitsLit(head, p, d + (x + ("-" + (n + (arch + (more + ".deb"))))));
    }
  }

  // ---- The table ------------------------------------------------------------------------------

  // Every row fits exactly the names spelled for it.
  lemma RowFits(i: nat, s: string)
    requires i < 19
    ensures |Table()| == 19 && (Fits(Table()[i].pattern, s) <==> Spelled(i, s))
  {
    TableIs(i);
    hide Fits, Table, Versioned, MaybeVersioned, Deb, Rpm, Source;
    match i
    case 0 => VersionedFits("Fluux.Messenger_", "_aarch64.dmg", s);
    case 1 => VersionedFits("Fluux.Messenger_", "_x64.dmg", s);
    case 2 => MaybeVersionedFits("Fluux.Messenger_", "aarch64.app.tar.gz", s);
    case 3 => MaybeVersionedFits("Fluux.Messenger_", "x64.app.tar.gz", s);
    case 4 => MaybeVersionedFits("Fluux.Messenger_", "aarch64.app.tar.gz.sig", s);
    case 5 => MaybeVersionedFits("Fluux.Messenger_", "x64.app.tar.gz.sig", s);
    case 6 => VersionedFits("Fluux.Messenger_", "_x64-setup.exe", s);
    case 7 => VersionedFits("Fluux.Messenger_", "_x64-setup.exe.sig", s);
    case 8 => VersionedFits("Fluux.Messenger_", "_x64_en-US.msi", s);
    case 9 => VersionedFits("Fluux.Messenger_", "_x64_en-US.msi.sig", s);
    case 10 => DebFits("_amd64", s);
    case 11 => DebFits("_arm64", s);
    case 12 => RpmFits(".x86_64.rpm", s);
    case 13 => RpmFits(".aarch64.rpm", s);
    case 14 => VersionedFits("fluux-messenger-", "-linux-x86_64.tar.gz", s);
    case 15 => VersionedFits("fluux-messenger-", "-linux-aarch64.tar.gz", s);
    case 16 => VersionedFits("fluux-messenger-", "-linux-x86_64.flatpak", s);
    case 17 => VersionedFits("fluux-messenger-", "-linux-aarch64.flatpak", s);
    case 18 => SourceFits(s);
    case _ =>
  }

  lemma TableIs(i: nat)
    requires i < 19
    ensures |Table()| == 19 && Table()[i].pattern == Pattern(i)
  {
    if i < 10 {
      DesktopRow(i);
    } else if i < 12 {
      DebRow(i);
    } else if i < 14 {
      RpmRow(i);
    } else {
      ArchiveRow(i);
    }
  }

  lemma DesktopRow(i: nat)
    requires i < 10
    ensures |Table()| == 19 && Table()[i].pattern == Pattern(i)
  {
  }

  lemma DebRow(i: nat)
    requires 10 <= i < 12
    ensures |Table()| == 19 && Table()[i].pattern == Pattern(i)
  {
  }

  lemma RpmRow(i: nat)
    requires 12 <= i < 14
    ensures |Table()| == 19 && Table()[i].pattern == Pattern(i)
  {
  }

  lemma ArchiveRow(i: nat)
    requires 14 <= i < 19
    ensures |Table()| == 19 && Table()[i].pattern == Pattern(i)
  {
  }

  function Pattern(i: nat): seq<Piece> {
    match i
    case 0 => [Lit("Fluux.Messenger_")] + ([Run(DigitsDots)] + [Lit("_aarch64.dmg")])
    case 1 => [Lit("Fluux.Messenger_")] + ([Run(DigitsDots)] + [Lit("_x64.dmg")])
    case 2 => [Lit("Fluux.Messenger_")] + ([Maybe("", DigitsDots, "_")] + [Lit("aarch64.app.tar.gz")])
    case 3 => [Lit("Fluux.Messenger_")] + ([Maybe("", DigitsDots, "_")] + [Lit("x64.app.tar.gz")])
    case 4 => [Lit("Fluux.Messenger_")] + ([Maybe("", DigitsDots, "_")] + [Lit("aarch64.app.tar.gz.sig")])
    case 5 => [Lit("Fluux.Messenger_")] + ([Maybe("", DigitsDots, "_")] + [Lit("x64.app.tar.gz.sig")])
    case 6 => [Lit("Fluux.Messenger_")] + ([Run(DigitsDots)] + [Lit("_x64-setup.exe")])
    case 7 => [Lit("Fluux.Messenger_")] + ([Run(DigitsDots)] + [Lit("_x64-setup.exe.sig")])
    case 8 => [Lit("Fluux.Messenger_")] + ([Run(DigitsDots)] + [Lit("_x64_en-US.msi")])
    case 9 => [Lit("Fluux.Messenger_")] + ([Run(DigitsDots)] + [Lit("_x64_en-US.msi.sig")])
    case 10 => [Lit("fluux-messenger_")] + ([Run(DigitsDots)] + ([Maybe("~", WordDots, "")]
                 + ([Lit("-")] + ([Run(Digits)] + ([Lit("_amd64")] + ([Star(Any)] + [Lit(".deb")]))))))
    case 11 => [Lit("fluux-messenger_")] + ([Run(DigitsDots)] + ([Maybe("~", WordDots, "")]
                 + ([Lit("-")] + ([Run(Digits)] + ([Lit("_arm64")] + ([Star(Any)] + [Lit(".deb")]))))))
    case 12 => [Lit("fluux-messenger-")]
                 + ([Run(DigitsDots)] + ([Lit("-")]
                 + ([Run(DigitsDots)] + ([Maybe(".", WordDots, "")] + [Lit(".x86_64.rpm")]))))
    case 13 => [Lit("fluux-messenger-")]
                 + ([Run(DigitsDots)] + ([Lit("-")]
                 + ([Run(DigitsDots)] + ([Maybe(".", WordDots, "")] + [Lit(".aarch64.rpm")]))))
    case 14 => [Lit("fluux-messenger-")] + ([Run(DigitsDots)] + [Lit("-linux-x86_64.tar.gz")])
    case 15 => [Lit("fluux-messenger-")] + ([Run(DigitsDots)] + [Lit("-linux-aarch64.tar.gz")])
    case 16 => [Lit("fluux-messenger-")] + ([Run(DigitsDots)] + [Lit("-linux-x86_64.flatpak")])
    case 17 => [Lit("fluux-messenger-")] + ([Run(DigitsDots)] + [Lit("-linux-aarch64.flatpak")])
    case 18 => [Lit("fluux-messenger-")] + ([Run(DigitsDots)] + ([Maybe("-", WordDots, "")] + [Lit("-source.tar.gz")]))
    case _ => []
  }

  // The version, with or without the tag's v.
  predicate Tagged(v: string, version: string) {
    v == "v" + version || (v == version && !("v" <= version))
  }

  lemma RowNames(i: nat, v: string, version: string)
    requires i < 19 && Tagged(v, version)
    ensures |Table()| == 19 && NameFor(Table()[i], v) == ReleaseName(i, version)
  {
    assert v == "v" + version ==> v[1..] == version;
  }

  // A file is renamed to a row's name exactly if it is spelled as that row's
  // build spells it.
  lemma RenamedAsSpelled(i: nat, s: string, v: string, version: string)
    requires i < 19 && Tagged(v, version)
    ensures GetNewName(s, v) == Some(ReleaseName(i, version)) <==> Spelled(i, s)
  {
    RowFits(i, s);
    RowNames(i, v, version);
    hide Table, Fits, Spelled, NameFor, ReleaseName;
    FirstMatchIs(Table(), s, v);
    if Spelled(i, s) {
      var j :| 0 <= j < |Table()| && Fits(Table()[j].pattern, s) && GetNewName(s, v) == Some(NameFor(Table()[j], v));
      AtMostOneRow(i, j, s);
    }
    if GetNewName(s, v) == Some(NameFor(Table()[i], v)) {
      var j :| 0 <= j < |Table()| && Fits(Table()[j].pattern, s) && GetNewName(s, v) == Some(NameFor(Table()[j], v));
      NameDetermines(i, v, j, v);
    }
  }

  // And left alone exactly if no row spells it.
  lemma LeftAlone(s: string, v: string)
    ensures GetNewName(s, v) == None <==> forall i: nat | i < 19 :: !Spelled(i, s)
  {
    hide Table, Fits, Spelled, NameFor;
    RowFits(0, s);
    FirstMatchIs(Table(), s, v);
    forall i: nat | i < 19 ensures Fits(Table()[i].pattern, s) <==> Spelled(i, s) {
      RowFits(i, s);
    }
  }

  // ---- The plan ----------------------------------------------------------------------------------

  // An asset's target is a row's name exactly if the asset is spelled as that
  // row's build spells it.
  lemma TargetAsSpelled(a: Asset, i: nat, v: string, version: string)
    requires i < 19 && Tagged(v, version)
    ensures Target(a, v) == Some(ReleaseName(i, version)) <==> Spelled(i, a.name)
  {
    RenamedAsSpelled(i, a.name, v, version);
    hide GetNewName, Spelled, ReleaseName, Tagged;
    if GetNewName(a.name, v).Some? {
      RenamedIsFinal(a.name, v, v);
    }
  }

  // The plan takes up exactly the assets some row spells.
  lemma {:induction false} PlannedAsSpelled(assets: seq<Asset>, v: string, a: Asset)
    ensures a in Plan(assets, v) <==> a in assets && exists i: nat :: i < 19 && Spelled(i, a.name)
  {
    hide Target, Spelled;
    if assets != [] {
      PlannedAsSpelled(assets[1..], v, a);
      assert a in assets <==> a == assets[0] || a in assets[1..];
      DueAsSpelled(assets[0], v);
    }
  }

  lemma DueAsSpelled(a: Asset, v: string)
    ensures Target(a, v).Some? <==> exists i: nat :: i < 19 && Spelled(i, a.name)
  {
    hide GetNewName, Spelled;
    LeftAlone(a.name, v);
    if GetNewName(a.name, v).Some? {
      RenamedIsFinal(a.name, v, v);
    }
  }
}
