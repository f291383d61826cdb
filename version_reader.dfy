/**
 * Reading the installed game's version: first from the candidate files in
 * the game directory, then from the launcher's own `config.json`. The
 * filesystem is given as maps from paths to contents: a path that is a key
 * exists, and a `None` content is a file whose read (or JSON parse) fails.
 */
module VersionReader {
  import opened Wrappers
  import opened Values
  import opened GamePaths
  import opened VersionText
  import opened Substrings

  /** Text files: present keys exist; `None` marks a file that cannot be read. */
  type TextFiles = map<Path, Option<string>>

  /** JSON files: present keys exist; `None` marks a file that cannot be read or parsed. */
  type JsonFiles = map<Path, Option<Json>>

  /** The files that may hold the version, relative to the game directory, in priority order. */
  const FileCandidates: seq<Path> := [
    ["version.txt"],
    ["Version.txt"],
    ["build.txt"],
    ["build.version"],
    ["version.json"],
    ["Client", "version.txt"],
    ["Client", "Version.txt"],
    ["Client", "build.txt"],
    ["Client", "build.version"],
    ["Client", "version.json"],
    ["Client", "resources", "version.txt"],
    ["Client", "resources", "version.json"]
  ]

  /** The version one candidate yields: it exists, reads, and its text contains a version. */
  function CandidateVersion(files: TextFiles, gameDir: Path, relative: Path): (r: Option<string>)
    ensures gameDir + relative !in files || files[gameDir + relative].None? ==> r.None?
    ensures gameDir + relative in files && files[gameDir + relative].Some? ==>
      r == ExtractVersionFromText(files[gameDir + relative].value)
    ensures r.Some? ==> IsSubstring(r.value, files[gameDir + relative].value)
  {
    var fullPath := gameDir + relative;
    if fullPath in files && files[fullPath].Some? then ExtractVersionFromText(files[fullPath].value)
    else None
  }

  /** The first result that is present, in list order. */
  function FirstFound(results: seq<Option<string>>): (r: Option<string>)
    ensures r.Some? ==>
      exists k :: 0 <= k < |results| && results[k] == r && forall j :: 0 <= j < k ==> results[j].None?
    ensures r.None? ==> forall k :: 0 <= k < |results| ==> results[k].None?
  {
    if results == [] then None
    else if results[0].Some? then results[0]
    else
      assert forall k :: 1 <= k < |results| ==> results[k] == results[1..][k - 1];
      FirstFound(results[1..])
  }

  /**
   * Results after the first present one are never consulted: two lists that
   * agree up to it give the same answer.
   */
  lemma {:induction false} LaterResultsIgnored(r1: seq<Option<string>>, r2: seq<Option<string>>, k: nat)
    requires k < |r1| && k < |r2| && r1[k].Some?
    requires forall j :: 0 <= j <= k ==> r1[j] == r2[j]
    ensures FirstFound(r1) == FirstFound(r2)
  {
    if r1[0].None? {
      LaterResultsIgnored(r1[1..], r2[1..], k - 1);
    }
  }

  /** What each candidate yields, in order. */
  function Yields(files: TextFiles, gameDir: Path, candidates: seq<Path>): (ys: seq<Option<string>>)
    ensures |ys| == |candidates|
    ensures forall i :: 0 <= i < |candidates| ==> ys[i] == CandidateVersion(files, gameDir, candidates[i])
  {
    seq(|candidates|, i requires 0 <= i < |candidates| => CandidateVersion(files, gameDir, candidates[i]))
  }

  /** The version of the first candidate that yields one, in list order. */
  function FirstVersion(files: TextFiles, gameDir: Path, candidates: seq<Path>): (r: Option<string>)
    ensures r.Some? ==>
      exists k :: 0 <= k < |candidates| && CandidateVersion(files, gameDir, candidates[k]) == r
        && forall j :: 0 <= j < k ==> CandidateVersion(files, gameDir, candidates[j]).None?
    ensures r.None? ==> forall k :: 0 <= k < |candidates| ==> CandidateVersion(files, gameDir, candidates[k]).None?
  {
    FirstFound(Yields(files, gameDir, candidates))
  }

  /**
   * Candidates after the first one that yields a version are never consulted:
   * two filesystems that agree up to it give the same result.
   */
  lemma LaterCandidatesIgnored(f1: TextFiles, f2: TextFiles, gameDir: Path, candidates: seq<Path>, k: nat)
    requires k < |candidates|
    requires CandidateVersion(f1, gameDir, candidates[k]).Some?
    requires forall j :: 0 <= j <= k ==>
      CandidateVersion(f1, gameDir, candidates[j]) == CandidateVersion(f2, gameDir, candidates[j])
    ensures FirstVersion(f1, gameDir, candidates) == FirstVersion(f2, gameDir, candidates)
  {
    LaterResultsIgnored(Yields(f1, gameDir, candidates), Yields(f2, gameDir, candidates), k);
  }

  /** `readVersionFromGameDir`: the candidates in order, returning at the first version found. */
  method ReadVersionFromGameDir(files: TextFiles, gameDir: Path) returns (v: Option<string>)
    ensures v == FirstVersion(files, gameDir, FileCandidates)
  {
    ghost var ys := Yields(files, gameDir, FileCandidates);
    for i := 0 to |FileCandidates|
      invariant FirstVersion(files, gameDir, FileCandidates) == FirstFound(ys[i..])
    {
      var fullPath := gameDir + FileCandidates[i];
      if fullPath in files {
        match files[fullPath]
        case Some(content) =>
          var version := ExtractVersionFromText(content);
          if version.Some? {
            return version;
          }
        case None =>
      }
      assert ys[i..][1..] == ys[i + 1..];
    }
    v := None;
  }

  /** Keeps a version only when it is a non-empty string (`version || null`). */
  function NonEmpty(version: Option<string>): (r: Option<string>)
    ensures r.Some? <==> version.Some? && version.value != ""
    ensures r.Some? ==> r == version
  {
    if version.Some? && version.value != "" then version else None
  }

  /** `cfg.hytale` */
  function Hytale(cfg: Json): Option<Json>
  {
    Member(Some(cfg), "hytale")
  }

  /** `entry.version` when it is a string. */
  function VersionOf(entry: Option<Json>): Option<string>
  {
    AsString(Member(entry, "version"))
  }

  /**
   * The version a parsed `config.json` gives for a normalised channel:
   * `hytale[channel].version`, else `hytale.latest.version`, else
   * `hytale.version`, each taken only when it is a string; an empty string
   * counts as no version, and does not fall through to the next key.
   */
  function ConfigVersion(cfg: Json, normalized: string): (r: Option<string>)
    ensures r.Some? ==> r.value != ""
    ensures VersionOf(Member(Hytale(cfg), normalized)).Some? ==>
      r == NonEmpty(VersionOf(Member(Hytale(cfg), normalized)))
    ensures VersionOf(Member(Hytale(cfg), normalized)).None? && VersionOf(Member(Hytale(cfg), "latest")).Some? ==>
      r == NonEmpty(VersionOf(Member(Hytale(cfg), "latest")))
    ensures VersionOf(Member(Hytale(cfg), normalized)).None? && VersionOf(Member(Hytale(cfg), "latest")).None? ==>
      r == NonEmpty(VersionOf(Hytale(cfg)))
  {
    var hytale := Member(Some(cfg), "hytale");
    var channelEntry := Member(hytale, normalized);
    var latestEntry := Member(hytale, "latest");
    var version: Option<string> :=
      if Truthy(Some(cfg)) && Truthy(hytale) then
        if Truthy(channelEntry) && AsString(Member(channelEntry, "version")).Some? then
          AsString(Member(channelEntry, "version"))
        else if Truthy(latestEntry) && AsString(Member(latestEntry, "version")).Some? then
          AsString(Member(latestEntry, "version"))
        else if AsString(Member(hytale, "version")).Some? then
          AsString(Member(hytale, "version"))
        else
          None
      else
        None;
    NonEmpty(version)
  }

  /** With no version of its own, `beta` reads what `latest` reads. */
  lemma BetaFallsBackToLatest(cfg: Json)
    requires VersionOf(Member(Hytale(cfg), "beta")).None?
    ensures ConfigVersion(cfg, "beta") == ConfigVersion(cfg, "latest")
  {
  }

  /** The configuration file exists and parses. */
  predicate Parses(configs: JsonFiles, p: Path)
  {
    p in configs && configs[p].Some?
  }

  /** The first configuration file that exists and parses decides the result, even when it gives no version. */
  function LocalConfigVersion(configs: JsonFiles, paths: seq<Path>, normalized: string): (r: Option<string>)
    ensures forall k ::
      (0 <= k < |paths| && Parses(configs, paths[k]) && forall j :: 0 <= j < k ==> !Parses(configs, paths[j])) ==>
        r == ConfigVersion(configs[paths[k]].value, normalized)
    ensures (forall k :: 0 <= k < |paths| ==> !Parses(configs, paths[k])) ==> r == None
  {
    if paths == [] then None
    else if Parses(configs, paths[0]) then ConfigVersion(configs[paths[0]].value, normalized)
    else
      assert forall k :: 1 <= k < |paths| ==> paths[k] == paths[1..][k - 1];
      LocalConfigVersion(configs, paths[1..], normalized)
  }

  /** The two places `config.json` is looked for: beside the application, then in its resources. */
  function ConfigPaths(appPath: Path, resourcesPath: Path): (ps: seq<Path>)
    ensures |ps| == 2
    ensures forall i :: 0 <= i < 2 ==> |ps[i]| >= 1 && ps[i][|ps[i]| - 1] == "config.json"
    ensures ps[0][..|ps[0]| - 1] == appPath && ps[1][..|ps[1]| - 1] == resourcesPath
    ensures ps[0] == ps[1] <==> appPath == resourcesPath
  {
    [appPath + ["config.json"], resourcesPath + ["config.json"]]
  }

  /** `readVersionFromLocalConfig`: every channel but `beta` reads as `latest`. */
  method ReadVersionFromLocalConfig(configs: JsonFiles, appPath: Path, resourcesPath: Path, channel: string)
    returns (v: Option<string>)
    ensures v == LocalConfigVersion(configs, ConfigPaths(appPath, resourcesPath), if channel == "beta" then "beta" else "latest")
  {
    var normalized := if channel == "beta" then "beta" else "latest";
    var candidatePaths := ConfigPaths(appPath, resourcesPath);
    for i := 0 to |candidatePaths|
      invariant LocalConfigVersion(configs, candidatePaths, normalized) == LocalConfigVersion(configs, candidatePaths[i..], normalized)
    {
      var localConfigPath := candidatePaths[i];
      if localConfigPath in configs {
        match configs[localConfigPath]
        case Some(cfg) =>
          return ConfigVersion(cfg, normalized);
        case None =>
      }
      assert candidatePaths[i..][1..] == candidatePaths[i + 1..];
    }
    v := None;
  }

  /**
   * The `get-hytale-version` request: the channel asked for (or the
   * configured one) is normalised; the game directory decides when it
   * yields a version, the configuration files otherwise.
   */
  method GetHytaleVersion(files: TextFiles, configs: JsonFiles, root: Path, appPath: Path, resourcesPath: Path,
                          channel: Option<Json>, settingsChannel: Option<Json>)
    returns (v: Option<string>)
    ensures var selected := NormalizeGameChannel(Or(channel, settingsChannel));
      var fromGameDir := FirstVersion(files, BuildGameDir(root, selected), FileCandidates);
      v == if fromGameDir.Some? then fromGameDir else LocalConfigVersion(configs, ConfigPaths(appPath, resourcesPath), selected)
  {
    var selectedChannel := NormalizeGameChannel(Or(channel, settingsChannel));
    var gameDir := BuildGameDir(root, selectedChannel);
    var gameVersion := ReadVersionFromGameDir(files, gameDir);
    if gameVersion.Some? {
      return gameVersion;
    }
    v := ReadVersionFromLocalConfig(configs, appPath, resourcesPath, selectedChannel);
  }
}
