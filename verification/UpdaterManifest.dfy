// The platform table of latest.json in scripts/rename-release-assets.js.

module UpdaterManifest {
  import opened Prelude
  import opened Text
  import opened AssetNames
  import opened RenameProtocol
  import opened AssetSpellings

  // sigPattern is the updater file's suffix with `.sig`, at a name's end.
  datatype Mapping = Mapping(suffix: string, platforms: seq<string>)
  datatype Platform = Platform(signature: string, url: string)

  function Mappings(): seq<Mapping> {
    [
      Mapping("_macOS_arm64.app.tar.gz", ["darwin-aarch64"]),
      Mapping("_macOS_x64.app.tar.gz", ["darwin-x86_64"]),
      Mapping("_Windows_x64.msi", ["windows-x86_64", "windows-x86_64-msi"]),
      Mapping("_Windows_x64-setup.exe", ["windows-x86_64-nsis"])
    ]
  }

  predicate Signs(m: Mapping, a: Asset) {
    EndsWith(a.name, m.suffix + ".sig")
  }

  // The first asset that carries the mapping's signature.
  function Signature(assets: seq<Asset>, m: Mapping): Option<Asset> {
    if assets == [] then None
    else if Signs(m, assets[0]) then Some(assets[0])
    else Signature(assets[1..], m)
  }

  function UpdaterFile(m: Mapping, version: string): string {
    "Fluux-Messenger_" + (version + m.suffix)
  }

  function Url(tag: string, file: string): string {
    "https://github.com/processone/fluux-messenger/releases/download/" + tag + "/" + file
  }

  // main strips one leading v from the tag; getNewName, given the result,
  // strips another.
  function VersionOf(tag: string): string {
    StripV(tag)
  }

  function Carried(sig: Asset, m: Mapping, tag: string): Platform {
    Platform(Trim(sig.bytes), Url(tag, UpdaterFile(m, VersionOf(tag))))
  }

  function WritePlatforms(platforms: map<string, Platform>, keys: seq<string>, p: Platform): map<string, Platform>
    decreases |keys|
  {
    if keys == [] then platforms else WritePlatforms(platforms[keys[0] := p], keys[1..], p)
  }

  function Manifest(assets: seq<Asset>, tag: string, mappings: seq<Mapping>, platforms: map<string,
      Platform>): map<string, Platform> {
    if mappings == [] then platforms
    else
      var m := mappings[0];
      var sig := Signature(assets, m);
      Manifest(assets, tag, mappings[1..],
               if sig.None? then platforms else WritePlatforms(platforms, m.platforms, Carried(sig.value, m, tag)))
  }

  method BuildManifest(assets: seq<Asset>, tag: string) returns (platforms: map<string, Platform>)
    ensures platforms == Manifest(assets, tag, Mappings(), map[])
  {
    platforms := map[];
    var mappings := Mappings();
    for i := 0 to |mappings|
      invariant Manifest(assets, tag, mappings[i..], platforms) == Manifest(assets, tag, mappings, map[])
    {
      var m := mappings[i];
      assert mappings[i..][1..] == mappings[i + 1..];
      var sigAsset := Signature(assets, m);
      if sigAsset.Some? {
        ghost var before := platforms;
        var entry := Carried(sigAsset.value, m, tag);
        for k := 0 to |m.platforms|
          invariant WritePlatforms(platforms, m.platforms[k..], entry) == WritePlatforms(before, m.platforms, entry)
        {
          assert m.platforms[k..][1..] == m.platforms[k + 1..];
          platforms := platforms[m.platforms[k] := entry];
        }
      }
    }
  }

  // ---- Nothing is written twice --------------------------------------------------

  predicate Disjoint(mappings: seq<Mapping>) {
    forall i, j, p | 0 <= i < j < |mappings| && p in mappings[i].platforms :: p !in mappings[j].platforms
  }

  lemma MappingsDisjoint()
    ensures Disjoint(Mappings())
  {
  }

  lemma {:induction false} WritesAll(platforms: map<string, Platform>, keys: seq<string>, p: Platform)
    ensures WritePlatforms(platforms, keys, p) == platforms + map k | k in keys :: p
    decreases |keys|
  {
    if keys != [] {
      WritesAll(platforms[keys[0] := p], keys[1..], p);
      assert keys == [keys[0]] + keys[1..];
    }
  }

  // Row i writes platform p.
  predicate Writes(assets: seq<Asset>, mappings: seq<Mapping>, i: nat, p: string) {
    i < |mappings| && p in mappings[i].platforms && Signature(assets, mappings[i]).Some?
  }

  // Each platform of a mapping whose signature is there carries exactly that
  // signature and that mapping's file; every other key is as before.
  lemma {:induction false} ManifestIs(assets: seq<Asset>, tag: string, mappings: seq<Mapping>, before: map<string,
      Platform>, p: string)
    requires Disjoint(mappings)
    ensures var after := Manifest(assets, tag, mappings, before);
            && (forall i: nat | Writes(assets, mappings, i, p) ::
                  p in after && after[p] == Carried(Signature(assets, mappings[i]).value, mappings[i], tag))
            && ((forall i: nat :: !Writes(assets, mappings, i, p)) ==>
                  (p in after <==> p in before) && (p in after ==> after[p] == before[p]))
  {
    hide Carried, Signature;
    if mappings != [] {
      var m, rest := mappings[0], mappings[1..];
      var sig := Signature(assets, m);
      var mid := if sig.None? then before else WritePlatforms(before, m.platforms, Carried(sig.value, m, tag));
      if sig.Some? {
        WritesAll(before, m.platforms, Carried(sig.value, m, tag));
      }
      assert forall i | 0 <= i < |rest| :: rest[i] == mappings[i + 1];
      ManifestIs(assets, tag, rest, mid, p);
      var after := Manifest(assets, tag, rest, mid);
      assert after == Manifest(assets, tag, mappings, before);
      forall i: nat ensures Writes(assets, rest, i, p) <==> Writes(assets, mappings, i + 1, p) {
        assert i < |rest| ==> rest[i] == mappings[i + 1];
      }
      if Writes(assets, mappings, 0, p) {
        assert p in mid && mid[p] == Carried(sig.value, m, tag);
        assert forall i: nat :: !Writes(assets, rest, i, p);
      } else {
        assert p in mid <==> p in before;
      }
      forall i: nat | Writes(assets, mappings, i, p)
        ensures p in after && after[p] == Carried(Signature(assets, mappings[i]).value, mappings[i], tag)
      {
        if i > 0 {
          assert Writes(assets, rest, i - 1, p);
        }
      }
    }
  }

  // The keys are exactly the platforms of the signatures found.
  lemma KeysAreFound(assets: seq<Asset>, tag: string, p: string)
    ensures p in Manifest(assets, tag, Mappings(), map[])
        <==> exists i: nat :: Writes(assets, Mappings(), i, p)
  {
    hide Mappings, Signature, Carried, Manifest;
    MappingsDisjoint();
    ManifestIs(assets, tag, Mappings(), map[], p);
  }

  // ---- Platform by platform ------------------------------------------------------

  // The five platforms.
  predicate Known(platform: string) {
    platform in ["darwin-aarch64", "darwin-x86_64", "windows-x86_64", "windows-x86_64-msi", "windows-x86_64-nsis"]
  }

  // How the updater file of each ends.
  function Ending(platform: string): string {
    match platform
    case "darwin-aarch64" => "_macOS_arm64.app.tar.gz"
    case "darwin-x86_64" => "_macOS_x64.app.tar.gz"
    case "windows-x86_64-nsis" => "_Windows_x64-setup.exe"
    case _ => "_Windows_x64.msi"
  }

  // Asset k is the first whose name ends like this.
  ghost predicate FirstEnding(assets: seq<Asset>, ending: string, k: nat) {
    && k < |assets|
    && (exists front :: assets[k].name == front + ending)
    && forall j, front | 0 <= j < k :: assets[j].name != front + ending
  }

  lemma EndsWithIs(s: string, w: string)
    ensures EndsWith(s, w) <==> exists front :: s == front + w
  {
    if EndsWith(s, w) {
      assert s == s[..|s| - |w|] + w;
    }
  }

  lemma {:induction false} SignatureIs(assets: seq<Asset>, m: Mapping)
    ensures forall k: nat | FirstEnding(assets, m.suffix + ".sig", k) :: Signature(assets, m) == Some(assets[k])
    ensures Signature(assets, m).Some? ==> exists k: nat :: FirstEnding(assets, m.suffix + ".sig", k)
  {
    if assets != [] {
      var w, rest := m.suffix + ".sig", assets[1..];
      EndsWithIs(assets[0].name, w);
      assert forall k | 0 <= k < |rest| :: rest[k] == assets[k + 1];
      if Signs(m, assets[0]) {
        assert FirstEnding(assets, w, 0);
      } else {
        SignatureIs(rest, m);
        forall k: nat | FirstEnding(assets, w, k) ensures Signature(assets, m) == Some(assets[k]) {
          assert FirstEnding(rest, w, k - 1);
        }
        if k: nat :| FirstEnding(rest, w, k) {
          assert forall j | 1 <= j < k + 1 :: assets[j] == rest[j - 1];
          assert FirstEnding(assets, w, k + 1);
        }
      }
    }
  }

  function RowOf(platform: string): nat {
    match platform
    case "darwin-aarch64" => 0
    case "darwin-x86_64" => 1
    case "windows-x86_64-nsis" => 3
    case _ => 2
  }

  lemma RowOfIs(p: string)
    ensures |Mappings()| == 4
    ensures Known(p) ==> p in Mappings()[RowOf(p)].platforms && Mappings()[RowOf(p)].suffix == Ending(p)
    ensures forall i | 0 <= i < 4 && p in Mappings()[i].platforms :: Known(p) && i == RowOf(p)
  {
  }

  // A platform is there exactly if it is one of the five and its file's
  // signature is; it carries the first such signature, trimmed, and its own
  // file's address.
  lemma PlatformIs(assets: seq<Asset>, tag: string, version: string, p: string)
    requires Tagged(tag, version)
    ensures var platforms := Manifest(assets, tag, Mappings(), map[]);
            && (p in platforms <==> Known(p) && exists k: nat :: FirstEnding(assets, Ending(p) + ".sig", k))
            && (forall k: nat | Known(p) && FirstEnding(assets, Ending(p) + ".sig", k) ::
                  && p in platforms
                  && platforms[p].signature == Trim(assets[k].bytes)
                  && platforms[p].url
                     == "https://github.com/processone/fluux-messenger/releases/download/"
                        + (tag + ("/Fluux-Messenger_" + (version + Ending(p)))))
  {
    var m := Mappings()[RowOf(p)];
    RowOfIs(p);
    UrlIs(m, tag, version);
    hide Mappings, Signature, Manifest, Trim, FirstEnding, Ending, RowOf, Known, UpdaterFile, Url;
    MappingsDisjoint();
    ManifestIs(assets, tag, Mappings(), map[], p);
    SignatureIs(assets, m);
    assert Known(p) && Signature(assets, m).Some? ==> Writes(assets, Mappings(), RowOf(p), p);
  }

  lemma UrlIs(m: Mapping, tag: string, version: string)
    requires Tagged(tag, version)
    ensures Url(tag, UpdaterFile(m, VersionOf(tag)))
         == "https://github.com/processone/fluux-messenger/releases/download/"
            + (tag + ("/Fluux-Messenger_" + (version + m.suffix)))
  {
    assert tag == "v" + version ==> tag[1..] == version;
    assert VersionOf(tag) == version;
    UrlJoins("https://github.com/processone/fluux-messenger/releases/download/", tag, "Fluux-Messenger_",
      version + m.suffix);
    assert "/" + "Fluux-Messenger_" == "/Fluux-Messenger_";
  }

  lemma UrlJoins(base: string, tag: string, name: string, file: string)
    ensures base + tag + "/" + (name + file) == base + (tag + (("/" + name) + file))
  {
  }

  // ---- The file named is the file signed ---------------------------------------------

  // Every signature in the release got its name from this run.
  predicate FromRename(assets: seq<Asset>, tag: string) {
    forall k, i | 0 <= k < |assets| && 0 <= i < |Mappings()| && Signs(Mappings()[i], assets[k]) ::
      exists row | 0 <= row < |Table()| :: assets[k].name == NameFor(Table()[row], VersionOf(tag))
  }

  lemma {:induction false} SignatureSigns(assets: seq<Asset>, m: Mapping)
    ensures Signature(assets, m).Some? ==> exists k | 0 <= k < |assets| ::
        assets[k] == Signature(assets, m).value && Signs(m, assets[k])
  {
    hide Signs;
    if assets != [] && !Signs(m, assets[0]) {
      SignatureSigns(assets[1..], m);
      if Signature(assets, m).Some? {
        var k :| 0 <= k < |assets[1..]| && assets[1..][k] == Signature(assets[1..], m).value
            && Signs(m, assets[1..][k]);
        assert assets[k + 1] == assets[1..][k];
      }
    }
  }

  function SigRow(i: nat): nat {
    if i == 0 then 4 else if i == 1 then 5 else if i == 2 then 9 else 7
  }

  lemma SigRows(i: nat)
    requires i < |Mappings()|
    ensures SigRow(i) < 10 && Suffixes()[SigRow(i)] == Mappings()[i].suffix + ".sig"
  {
  }

  // A produced name that ends like a signature is that mapping's signature.
  lemma SignatureName(name: string, i: nat, row: nat, v: string)
    requires i < |Mappings()| && row < |Table()| && name == NameFor(Table()[row], v)
    requires EndsWith(name, Mappings()[i].suffix + ".sig")
    ensures name == "Fluux-Messenger_" + (StripV(v) + (Mappings()[i].suffix + ".sig"))
  {
    hide Table, Mappings, Decide, Suffixes, StripV;
    DebRows();
    SigRows(i);
    RowEnds(row);
    UpdaterSuffixDecides(SigRow(i), name);
    var s := Suffixes()[row];
    assert name[|name| - |s|..] == s;
    if row < 10 { UpdaterSuffixDecides(row, name); } else { LinuxSuffixDecides(row, name); }
  }

  // For every release and tag: a platform's URL names the file its signature
  // signs exactly when the tag does not begin with two v's.
  lemma UrlNamesSignedFile(assets: seq<Asset>, tag: string, i: nat, p: string)
    requires FromRename(assets, tag)
    requires i < |Mappings()| && p in Mappings()[i].platforms && Signature(assets, Mappings()[i]).Some?
    ensures var platforms := Manifest(assets, tag, Mappings(), map[]);
            var sig := Signature(assets, Mappings()[i]).value;
            && p in platforms
            && platforms[p].signature == Trim(sig.bytes)
            && ((exists file :: platforms[p].url == Url(tag, file) && sig.name == file + ".sig") <==> !("vv" <= tag))
  {
    hide Mappings, Table, NameFor, Signature, Manifest, Url, Trim, EndsWith;
    MappingsDisjoint();
    ManifestIs(assets, tag, Mappings(), map[], p);
    assert Writes(assets, Mappings(), i, p);
    SignatureSigns(assets, Mappings()[i]);
    var m, sig := Mappings()[i], Signature(assets, Mappings()[i]).value;
    var k :| 0 <= k < |assets| && assets[k] == sig && Signs(m, assets[k]);
    var row :| 0 <= row < |Table()| && sig.name == NameFor(Table()[row], VersionOf(tag));
    SignatureName(sig.name, i, row, VersionOf(tag));
    if file :| Url(tag, UpdaterFile(m, VersionOf(tag))) == Url(tag, file) && sig.name == file + ".sig" {
      UrlDetermines(tag, UpdaterFile(m, VersionOf(tag)), file);
    }
  }

  lemma UrlDetermines(tag: string, a: string, b: string)
    requires Url(tag, a) == Url(tag, b)
    ensures a == b
  {
    var front := "https://github.com/processone/fluux-messenger/releases/download/" + tag + "/";
    assert Url(tag, a)[|front|..] == a && Url(tag, b)[|front|..] == b;
  }

  // ---- At an input -------------------------------------------------------------------------

  const SIGNED_FILE := "Fluux-Messenger_1.0.0" + "_macOS_arm64.app.tar.gz"

  // A release tagged vv1.0.0 whose signature this run renamed: the URL names a
  // file with a v that the signed file's name has lost.
  lemma DoubleVTag(sig: Asset)
    requires sig.name == SIGNED_FILE + ".sig"
    ensures var tag := "vv1.0.0";
            var platforms := Manifest([sig], tag, Mappings(), map[]);
            && FromRename([sig], tag)
            && "darwin-aarch64" in platforms
            && platforms["darwin-aarch64"].url == Url(tag, "Fluux-Messenger_v1.0.0" + "_macOS_arm64.app.tar.gz")
            && !exists file :: platforms["darwin-aarch64"].url == Url(tag, file) && sig.name == file + ".sig"
  {
    var tag := "vv1.0.0";
    DoubleVNames(sig);
    assert Mappings()[0].platforms[0] == "darwin-aarch64";
    assert Signature([sig], Mappings()[0]) == Some(sig);
    hide Mappings, Table, NameFor, Signature, Manifest, Url, Trim, EndsWith, FromRename;
    UrlNamesSignedFile([sig], tag, 0, "darwin-aarch64");
    MappingsDisjoint();
    ManifestIs([sig], tag, Mappings(), map[], "darwin-aarch64");
    assert Writes([sig], Mappings(), 0, "darwin-aarch64");
  }

  lemma DoubleVNames(sig: Asset)
    requires sig.name == SIGNED_FILE + ".sig"
    ensures FromRename([sig], "vv1.0.0") && Signs(Mappings()[0], sig) && "vv" <= "vv1.0.0"
    ensures UpdaterFile(Mappings()[0], VersionOf("vv1.0.0")) == "Fluux-Messenger_v1.0.0" + "_macOS_arm64.app.tar.gz"
  {
    assert VersionOf("vv1.0.0") == "v1.0.0" && StripV("v1.0.0") == "1.0.0";
    assert |Table()| > 4 && Table()[4].suffix == "_macOS_arm64.app.tar.gz.sig";
    assert sig.name == NameFor(Table()[4], "v1.0.0");
  }
}
