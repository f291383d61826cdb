/**
 * Path resolution for the launcher's game installation: channel
 * normalisation, the per-channel game directory, the repair target and the
 * quarantine directory. A path is the sequence of its segments; the
 * filesystem, where needed, is the set of paths that exist.
 */
module GamePaths {
  import opened Wrappers
  import opened Values
  import opened Decimal

  type Path = seq<string>

  const DefaultChannel: string := "latest"
  const Channels: seq<string> := ["latest", "beta"]
  const GamePathParts: Path := ["install", "release", "package", "game"]
  const PendingDeleteDir: string := "pending_delete"

  predicate IsChannel(c: string)
  {
    c in Channels
  }

  /**
   * A requested channel (an IPC argument or a settings value, `None` for
   * `undefined`) made into one of the known channels.
   */
  function NormalizeGameChannel(value: Option<Json>): (r: string)
    ensures IsChannel(r)
    ensures value.Some? && value.value.JStr? && IsChannel(value.value.s) ==> r == value.value.s
    ensures !(value.Some? && value.value.JStr? && IsChannel(value.value.s)) ==> r == DefaultChannel
  {
    match value
    case Some(JStr(s)) => if s in Channels then s else DefaultChannel
    case _ => DefaultChannel
  }

  /** Normalising an already normalised channel changes nothing. */
  lemma NormalizeIdempotent(value: Option<Json>)
    ensures NormalizeGameChannel(Some(JStr(NormalizeGameChannel(value)))) == NormalizeGameChannel(value)
  {
  }

  /** The installation directory of a channel under the launcher's root. */
  function BuildGameDir(root: Path, channel: string): (dir: Path)
    ensures |dir| == |root| + |GamePathParts| + 1
    ensures dir[..|root|] == root
    ensures dir[|root|..|root| + |GamePathParts|] == GamePathParts
    ensures dir[|dir| - 1] == channel
  {
    root + GamePathParts + [channel]
  }

  /** Game directories of different channels, or under different roots, differ. */
  lemma BuildGameDirInjective(root1: Path, ch1: string, root2: Path, ch2: string)
    requires BuildGameDir(root1, ch1) == BuildGameDir(root2, ch2)
    ensures root1 == root2 && ch1 == ch2
  {
    var d := BuildGameDir(root1, ch1);
    assert root1 == d[..|d| - 5] && root2 == d[..|d| - 5];
  }

  /** The other channel of the two-channel model. */
  function SiblingChannel(preferred: string): (r: string)
    ensures IsChannel(r)
    ensures r != preferred
  {
    if preferred == "beta" then "latest" else "beta"
  }

  /** On the two known channels the sibling relation is an involution. */
  lemma SiblingInvolutive(c: string)
    requires IsChannel(c)
    ensures SiblingChannel(SiblingChannel(c)) == c
  {
  }

  datatype RepairTarget = RepairTarget(channel: string, dir: Path)

  /**
   * The directory a repair acts on: the preferred channel's when it exists,
   * else the sibling channel's when that exists, else the preferred one.
   */
  function ResolveRepairTarget(existing: set<Path>, root: Path, preferred: string): (t: RepairTarget)
    ensures t.dir == BuildGameDir(root, t.channel)
    ensures t.channel == preferred || t.channel == SiblingChannel(preferred)
    ensures BuildGameDir(root, preferred) in existing ==> t.channel == preferred
    ensures t.channel != preferred ==>
      BuildGameDir(root, preferred) !in existing && BuildGameDir(root, SiblingChannel(preferred)) in existing
    ensures t.dir in existing <==>
      BuildGameDir(root, preferred) in existing || BuildGameDir(root, SiblingChannel(preferred)) in existing
  {
    var primaryDir := BuildGameDir(root, preferred);
    if primaryDir in existing then
      RepairTarget(preferred, primaryDir)
    else
      var fallbackChannel := SiblingChannel(preferred);
      var fallbackDir := BuildGameDir(root, fallbackChannel);
      if fallbackDir in existing then
        RepairTarget(fallbackChannel, fallbackDir)
      else
        RepairTarget(preferred, primaryDir)
  }

  /**
   * Reference rule: the first channel of an ordered preference list whose
   * directory exists, or the default when none does.
   */
  function FirstExistingChannel(existing: set<Path>, root: Path, preference: seq<string>, default: string): (c: string)
    ensures c in preference || c == default
  {
    if preference == [] then default
    else if BuildGameDir(root, preference[0]) in existing then preference[0]
    else FirstExistingChannel(existing, root, preference[1..], default)
  }

  /** The two-channel resolution is the preference-list rule over [preferred, sibling]. */
  lemma ResolveIsPreferenceOrder(existing: set<Path>, root: Path, preferred: string)
    ensures ResolveRepairTarget(existing, root, preferred).channel ==
      FirstExistingChannel(existing, root, [preferred, SiblingChannel(preferred)], preferred)
  {
    var prefs := [preferred, SiblingChannel(preferred)];
    assert prefs[1..] == [SiblingChannel(preferred)];
    assert prefs[1..][1..] == [];
  }

  /** `<root>/cache/pending_delete`, where quarantined installations go. */
  function PendingBase(root: Path): (base: Path)
    ensures |base| == |root| + 2 && base[..|root|] == root
  {
    root + ["cache", PendingDeleteDir]
  }

  /** `<root>/cache/pending_delete/<channel>_<timestamp>`. */
  function PendingTarget(root: Path, channel: string, timestamp: nat): (p: Path)
    ensures |p| == |root| + 3 && p[..|root| + 2] == PendingBase(root)
  {
    PendingBase(root) + [channel + "_" + NatToDecimal(timestamp)]
  }

  /** Quarantine names of one channel are unique per timestamp. */
  lemma PendingTargetInjective(root: Path, channel: string, t1: nat, t2: nat)
    requires PendingTarget(root, channel, t1) == PendingTarget(root, channel, t2)
    ensures t1 == t2
  {
    var n1 := channel + "_" + NatToDecimal(t1);
    var n2 := channel + "_" + NatToDecimal(t2);
    assert n1 == PendingTarget(root, channel, t1)[|root| + 2];
    assert n2 == PendingTarget(root, channel, t2)[|root| + 2];
    assert NatToDecimal(t1) == n1[|channel| + 1..];
    assert NatToDecimal(t2) == n2[|channel| + 1..];
    NatToDecimalInjective(t1, t2);
  }

  /** `dir` is `p` or one of its ancestors. */
  predicate Under(dir: Path, p: Path)
  {
    |dir| <= |p| && p[..|dir|] == dir
  }

  /**
   * The quarantine area and every game directory are disjoint subtrees of
   * the root: neither contains the other.
   */
  lemma PendingOutsideGameDir(root: Path, channel: string, p: Path)
    requires Under(PendingBase(root), p)
    ensures !Under(BuildGameDir(root, channel), p)
    ensures !Under(p, BuildGameDir(root, channel))
  {
    assert p[|root|] == "cache";
    var g := BuildGameDir(root, channel);
    assert g[|root|] == "install";
  }
}
