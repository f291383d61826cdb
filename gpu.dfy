/**
 * Classification of the video controller names printed by the Windows
 * management tool: the output is split into lines, each line is trimmed,
 * blank lines and the `Name` column header are dropped, and the first line
 * naming an integrated or a dedicated vendor is picked for each role, with
 * positional fallbacks when no line names one.
 */
module GpuLines {
  import opened Wrappers

  /** The pieces of `s` between line feeds (`s.split('\n')`); there is always at least one. */
  function Split(s: string): (parts: seq<string>)
    ensures |parts| >= 1
    ensures forall i :: 0 <= i < |parts| ==> '\n' !in parts[i]
    decreases |s|
  {
    if s == [] then [""]
    else if s[0] == '\n' then [""] + Split(s[1..])
    else
      var rest := Split(s[1..]);
      [[s[0]] + rest[0]] + rest[1..]
  }

  /** The pieces joined back with line feeds between them. */
  function Join(parts: seq<string>): (s: string)
    requires |parts| >= 1
    ensures |s| >= |parts| - 1
    decreases |parts|
  {
    if |parts| == 1 then parts[0] else parts[0] + "\n" + Join(parts[1..])
  }

  /** Splitting loses nothing: joining the pieces gives back the text. */
  lemma {:induction false} JoinSplit(s: string)
    ensures Join(Split(s)) == s
    decreases |s|
  {
    if s != [] {
      JoinSplit(s[1..]);
      var rest := Split(s[1..]);
      if s[0] != '\n' {
        if |rest| == 1 {
          assert Split(s) == [[s[0]] + rest[0]];
        } else {
          assert Split(s)[1..] == rest[1..];
        }
        assert s == [s[0]] + s[1..];
      } else {
        assert Split(s)[1..] == rest;
      }
    }
  }

  /** Splitting is injective on pieces free of line feeds: it recovers the pieces that were joined. */
  lemma {:induction false} SplitJoin(parts: seq<string>)
    requires |parts| >= 1
    requires forall i :: 0 <= i < |parts| ==> '\n' !in parts[i]
    ensures Split(Join(parts)) == parts
    decreases |parts|, |parts[0]|
  {
    var first := parts[0];
    if first == [] {
      if |parts| > 1 {
        SplitJoin(parts[1..]);
        assert Join(parts) == "\n" + Join(parts[1..]);
        assert Join(parts)[1..] == Join(parts[1..]);
        assert parts == [""] + parts[1..];
      }
    } else {
      var shorter := [first[1..]] + parts[1..];
      assert '\n' !in shorter[0] by { assert forall c :: c in first[1..] ==> c in first; }
      assert forall i :: 1 <= i < |shorter| ==> shorter[i] == parts[i];
      SplitJoin(shorter);
      assert shorter[1..] == parts[1..];
      assert Join(parts) == [first[0]] + Join(shorter);
      assert Join(parts)[1..] == Join(shorter);
      assert [first[0]] + first[1..] == first;
      assert parts == [first] + parts[1..];
    }
  }

  /** The characters `String.prototype.trim` removes: white space and line terminators. */
  predicate IsTrimmable(c: char)
  {
    || c == '\t' || c == '\n' || c == '\U{000B}' || c == '\U{000C}' || c == '\r' || c == ' '
    || c == '\U{00A0}' || c == '\U{1680}' || ('\U{2000}' <= c <= '\U{200A}')
    || c == '\U{2028}' || c == '\U{2029}' || c == '\U{202F}' || c == '\U{205F}'
    || c == '\U{3000}' || c == '\U{FEFF}'
  }

  /** Number of trimmable characters at the start of `s`. */
  function LeadingTrimmable(s: string): (n: nat)
    ensures n <= |s|
    ensures forall k :: 0 <= k < n ==> IsTrimmable(s[k])
    ensures n == |s| || !IsTrimmable(s[n])
    decreases |s|
  {
    if s != [] && IsTrimmable(s[0]) then 1 + LeadingTrimmable(s[1..]) else 0
  }

  /** Number of trimmable characters at the end of `s`. */
  function TrailingTrimmable(s: string): (n: nat)
    ensures n <= |s|
    ensures forall k :: |s| - n <= k < |s| ==> IsTrimmable(s[k])
    ensures n == |s| || !IsTrimmable(s[|s| - n - 1])
    decreases |s|
  {
    if s != [] && IsTrimmable(s[|s| - 1]) then 1 + TrailingTrimmable(s[..|s| - 1]) else 0
  }

  /**
   * `s.trim()`: the middle of `s` left once the trimmable characters at both
   * ends are cut off. What is cut is all trimmable, and what is left neither
   * starts nor ends with a trimmable character.
   */
  function Trim(s: string): (r: string)
    ensures exists i, j :: 0 <= i <= j <= |s| && r == s[i..j]
              && (forall k :: 0 <= k < i ==> IsTrimmable(s[k]))
              && (forall k :: j <= k < |s| ==> IsTrimmable(s[k]))
    ensures r != [] ==> !IsTrimmable(r[0]) && !IsTrimmable(r[|r| - 1])
    ensures (forall k :: 0 <= k < |s| ==> !IsTrimmable(s[k])) ==> r == s
  {
    var lead := LeadingTrimmable(s);
    if lead == |s| then
      assert "" == s[0..0];
      ""
    else
      var trail := TrailingTrimmable(s);
      assert !IsTrimmable(s[lead]);
      assert trail < |s| - lead;
      var r := s[lead..|s| - trail];
      assert r[0] == s[lead] && r[|r| - 1] == s[|s| - trail - 1];
      assert (forall k :: 0 <= k < |s| ==> !IsTrimmable(s[k])) ==> r == s by {
        if forall k :: 0 <= k < |s| ==> !IsTrimmable(s[k]) {
          assert lead == 0 && trail == 0;
        }
      }
      r
  }

  /** A name worth keeping: not blank and not the column header. */
  predicate IsName(l: string)
  {
    l != "" && l != "Name"
  }

  /** The kept lines, in their original order (`filter(l => l && l !== 'Name')`). */
  function KeepNames(lines: seq<string>): (r: seq<string>)
    ensures |r| <= |lines|
    ensures forall l :: l in r <==> l in lines && IsName(l)
    ensures (forall i :: 0 <= i < |lines| ==> IsName(lines[i])) ==> r == lines
    decreases |lines|
  {
    if lines == [] then []
    else
      var rest := KeepNames(lines[1..]);
      assert forall l :: l in lines <==> l == lines[0] || l in lines[1..];
      if IsName(lines[0]) then
        assert lines == [lines[0]] + lines[1..];
        [lines[0]] + rest
      else rest
  }

  /** A single line is kept exactly when it is a name. */
  lemma KeepNamesSingle(l: string)
    ensures KeepNames([l]) == if IsName(l) then [l] else []
  {
    assert [l][1..] == [];
  }

  /**
   * The filter works line by line: the kept lines of two blocks are the kept
   * lines of the first followed by those of the second, so order and
   * repetitions survive.
   */
  lemma {:induction false} KeepNamesAppend(a: seq<string>, b: seq<string>)
    ensures KeepNames(a + b) == KeepNames(a) + KeepNames(b)
    decreases |a|
  {
    if a != [] {
      assert (a + b)[1..] == a[1..] + b;
      KeepNamesAppend(a[1..], b);
    } else {
      assert a + b == b;
    }
  }

  /** Each piece of the output, trimmed. */
  function TrimAll(pieces: seq<string>): (r: seq<string>)
    ensures |r| == |pieces|
    ensures forall i :: 0 <= i < |r| ==> r[i] == Trim(pieces[i])
  {
    seq(|pieces|, i requires 0 <= i < |pieces| => Trim(pieces[i]))
  }

  /** The listed controller names of the tool's output. */
  function Names(stdout: string): (lines: seq<string>)
    ensures forall l :: l in lines ==> IsName(l) && l == Trim(l)
    ensures forall l :: l in lines <==> exists p :: p in Split(stdout) && l == Trim(p) && IsName(l)
    ensures lines == KeepNames(TrimAll(Split(stdout)))
  {
    var trimmed := TrimAll(Split(stdout));
    forall l | l in trimmed ensures l == Trim(l) {
      TrimIdempotent(l);
    }
    KeepNames(trimmed)
  }

  /** Trimming a trimmed string changes nothing. */
  lemma TrimIdempotent(l: string)
    requires exists s :: l == Trim(s)
    ensures Trim(l) == l
  {
    if l != [] {
      var lead := LeadingTrimmable(l);
      var trail := TrailingTrimmable(l);
      assert lead == 0 && trail == 0;
      assert l[0..|l|] == l;
    }
  }

  /** ASCII upper case; the keywords are ASCII, and a case-insensitive match never pairs a non-ASCII character with one. */
  function Upper(c: char): (u: char)
    ensures ('a' <= c <= 'z') ==> u as int == c as int - 32
    ensures !('a' <= c <= 'z') ==> u == c
  {
    if 'a' <= c <= 'z' then (c as int - 32) as char else c
  }

  /** `kw` occurs in `s` at position `i`, ignoring case. */
  predicate MatchesAt(s: string, kw: string, i: nat)
  {
    i + |kw| <= |s| && forall k :: 0 <= k < |kw| ==> Upper(s[i + k]) == Upper(kw[k])
  }

  /** `kw` occurs somewhere in `s` at or after `from`, ignoring case. */
  function ContainsFrom(s: string, kw: string, from: nat): (b: bool)
    requires from <= |s|
    ensures b <==> exists i: nat :: from <= i && MatchesAt(s, kw, i)
    decreases |s| - from
  {
    if MatchesAt(s, kw, from) then true
    else if from + |kw| >= |s| then
      assert forall i: nat :: from < i ==> !MatchesAt(s, kw, i);
      false
    else ContainsFrom(s, kw, from + 1)
  }

  /** `s` matches the case-insensitive alternation of `keywords`. */
  predicate Mentions(s: string, keywords: seq<string>)
  {
    exists j :: 0 <= j < |keywords| && ContainsFrom(s, keywords[j], 0)
  }

  /** `/Intel|Display/i` */
  const IntegratedKeywords: seq<string> := ["Intel", "Display"]
  /** `/NVIDIA|AMD|Radeon RX/i` */
  const DedicatedKeywords: seq<string> := ["NVIDIA", "AMD", "Radeon RX"]

  /** Index of the first line mentioning one of `keywords` (`lines.find`). */
  function FindFirst(lines: seq<string>, keywords: seq<string>): (r: Option<nat>)
    ensures r.Some? ==> r.value < |lines| && Mentions(lines[r.value], keywords)
    ensures r.Some? ==> forall j :: 0 <= j < r.value ==> !Mentions(lines[j], keywords)
    ensures r.None? <==> forall j :: 0 <= j < |lines| ==> !Mentions(lines[j], keywords)
    decreases |lines|
  {
    if lines == [] then None
    else if Mentions(lines[0], keywords) then Some(0)
    else
      match FindFirst(lines[1..], keywords)
      case None => None
      case Some(k) => Some(k + 1)
  }

  /** The line found by `lines.find` with the alternation of `keywords`, if any. */
  function FirstMentioning(lines: seq<string>, keywords: seq<string>): (r: Option<string>)
    ensures r.Some? <==> exists i :: 0 <= i < |lines| && Mentions(lines[i], keywords)
    ensures r.Some? ==> FirstWith(lines, keywords, r.value)
  {
    match FindFirst(lines, keywords)
    case Some(i) => Some(lines[i])
    case None => None
  }

  /** `l` is the first line of `lines` that mentions one of `keywords`. */
  ghost predicate FirstWith(lines: seq<string>, keywords: seq<string>, l: string)
  {
    exists j :: 0 <= j < |lines| && l == lines[j] && Mentions(l, keywords)
                && forall k :: 0 <= k < j ==> !Mentions(lines[k], keywords)
  }

  /**
   * The role choice: when some line mentions one of `keywords`, the first
   * such line; otherwise `fallback`.
   */
  ghost predicate FirstOrFallback(lines: seq<string>, keywords: seq<string>, pick: Option<string>, fallback: Option<string>)
  {
    if exists i :: 0 <= i < |lines| && Mentions(lines[i], keywords)
    then pick.Some? && FirstWith(lines, keywords, pick.value)
    else pick == fallback
  }

  /** `lines.find(...) || fallback` */
  function PickRole(lines: seq<string>, keywords: seq<string>, fallback: Option<string>): (r: Option<string>)
    ensures FirstOrFallback(lines, keywords, r, fallback)
  {
    var found := FirstMentioning(lines, keywords);
    if found.Some? then found else fallback
  }

  /** The classification: every listed name, the integrated entry and the dedicated entry. */
  datatype GpuInfo = GpuInfo(all: seq<string>, integrated: Option<string>, dedicated: Option<string>)

  /**
   * The first line naming an integrated vendor, or else the first line; the
   * first line naming a dedicated vendor, or else the last line when there
   * are at least two.
   */
  function ClassifyGpus(stdout: string): (g: GpuInfo)
    ensures g.all == Names(stdout)
    ensures FirstOrFallback(g.all, IntegratedKeywords, g.integrated, if |g.all| > 0 then Some(g.all[0]) else None)
    ensures FirstOrFallback(g.all, DedicatedKeywords, g.dedicated, if |g.all| > 1 then Some(g.all[|g.all| - 1]) else None)
  {
    var lines := Names(stdout);
    GpuInfo(lines,
            PickRole(lines, IntegratedKeywords, if |lines| > 0 then Some(lines[0]) else None),
            PickRole(lines, DedicatedKeywords, if |lines| > 1 then Some(lines[|lines| - 1]) else None))
  }

  /**
   * Both roles are always filled from the listed names: the integrated one
   * whenever there is a name, the dedicated one whenever there are two names
   * or a dedicated vendor is named.
   */
  lemma ClassifiedNamesAreListed(stdout: string)
    ensures var g := ClassifyGpus(stdout);
      && (g.integrated.Some? <==> |g.all| > 0)
      && (g.integrated.Some? ==> g.integrated.value in g.all)
      && (g.dedicated.Some? <==> |g.all| > 1 || exists i :: 0 <= i < |g.all| && Mentions(g.all[i], DedicatedKeywords))
      && (g.dedicated.Some? ==> g.dedicated.value in g.all)
  {
  }

  /** Each name followed by the carriage return of a CRLF line ending. */
  function WithCr(names: seq<string>): (lines: seq<string>)
    ensures |lines| == |names|
    ensures forall i :: 0 <= i < |names| ==> lines[i] == names[i] + "\r"
  {
    seq(|names|, i requires 0 <= i < |names| => names[i] + "\r")
  }

  /** Output printed one name per line with CRLF line endings, the last line terminated too. */
  function CrlfOutput(names: seq<string>): string
  {
    Join(WithCr(names) + [""])
  }

  /** A name as the tool prints it: not blank, on one line, not padded. */
  predicate IsBareName(v: string)
  {
    v != [] && '\n' !in v && !IsTrimmable(v[0]) && !IsTrimmable(v[|v| - 1])
  }

  /**
   * Reading CRLF output gives back the printed names, less the blank ones and
   * the column header, in order.
   */
  lemma CrlfOutputNames(names: seq<string>)
    requires forall i :: 0 <= i < |names| ==> IsBareName(names[i])
    ensures Names(CrlfOutput(names)) == KeepNames(names)
  {
    SplitCrlf(names);
    TrimAllCrlf(names);
    KeepNamesDropsBlank(names);
  }

  lemma SplitCrlf(names: seq<string>)
    requires forall i :: 0 <= i < |names| ==> IsBareName(names[i])
    ensures Split(CrlfOutput(names)) == WithCr(names) + [""]
  {
    var pieces := WithCr(names) + [""];
    forall i | 0 <= i < |pieces|
      ensures '\n' !in pieces[i]
    {
      if i < |names| {
        assert pieces[i] == names[i] + "\r";
      }
    }
    SplitJoin(pieces);
  }

  lemma TrimAllCrlf(names: seq<string>)
    requires forall i :: 0 <= i < |names| ==> IsBareName(names[i])
    ensures TrimAll(WithCr(names) + [""]) == names + [""]
  {
    var t := TrimAll(WithCr(names) + [""]);
    forall i | 0 <= i < |names|
      ensures t[i] == names[i]
    {
      TrimDropsCarriageReturn(names[i]);
    }
    assert t[|names|] == Trim("") == "";
  }

  /** A trailing blank line changes nothing. */
  lemma {:induction false} KeepNamesDropsBlank(lines: seq<string>)
    ensures KeepNames(lines + [""]) == KeepNames(lines)
    decreases |lines|
  {
    if lines != [] {
      assert (lines + [""])[1..] == lines[1..] + [""];
      KeepNamesDropsBlank(lines[1..]);
    }
  }

  /** A two-adapter machine: the header is dropped and both names are listed. */
  lemma ClassifyTwoAdapters(names: seq<string>)
    requires names == ["Name", "Intel UHD", "NVIDIA RTX"]
    ensures Names(CrlfOutput(names)) == ["Intel UHD", "NVIDIA RTX"]
  {
    TwoAdaptersAreBare(names);
    CrlfOutputNames(names);
    assert names[1..][1..][1..] == [];
    assert KeepNames(names[1..][1..]) == ["NVIDIA RTX"];
  }

  /** On that machine the Intel adapter is the integrated one and the NVIDIA adapter the dedicated one. */
  lemma ClassifyTwoAdapterRoles(names: seq<string>)
    requires names == ["Name", "Intel UHD", "NVIDIA RTX"]
    ensures ClassifyGpus(CrlfOutput(names)) == GpuInfo(names[1..], Some("Intel UHD"), Some("NVIDIA RTX"))
  {
    ClassifyTwoAdapters(names);
    var all := names[1..];
    IntelUhdIsIntegrated(all[0]);
    NvidiaRtxIsDedicated(all[1]);
    assert FindFirst(all, IntegratedKeywords) == Some(0);
    assert FindFirst(all[1..], DedicatedKeywords) == Some(0);
    assert FindFirst(all, DedicatedKeywords) == Some(1);
  }

  lemma IntelUhdIsIntegrated(l: string)
    requires l == "Intel UHD"
    ensures Mentions(l, IntegratedKeywords) && !Mentions(l, DedicatedKeywords)
  {
    assert MatchesAt(l, IntegratedKeywords[0], 0);
    NoNvidiaInIntelUhd();
    NoAmdInIntelUhd(l, "AMD");
    NoRadeonInIntelUhd();
    assert forall j :: 0 <= j < |DedicatedKeywords| ==> !ContainsFrom(l, DedicatedKeywords[j], 0);
  }

  lemma NoAmdInIntelUhd(l: string, kw: string)
    requires l == "Intel UHD" && kw == "AMD"
    ensures !ContainsFrom(l, kw, 0)
  {
    assert Upper(kw[0]) == 'A';
    forall i: nat | i + |kw| <= |l|
      ensures !MatchesAt(l, kw, i)
    {
      assert l[i] != 'a' && l[i] != 'A';
    }
  }

  lemma NoRadeonInIntelUhd()
    ensures !ContainsFrom("Intel UHD", "Radeon RX", 0)
  {
    var l := "Intel UHD";
    assert Upper(l[0]) != Upper("Radeon RX"[0]);
    assert forall i: nat :: 0 < i ==> !MatchesAt(l, "Radeon RX", i);
  }

  lemma NoNvidiaInIntelUhd()
    ensures !ContainsFrom("Intel UHD", "NVIDIA", 0)
  {
    var l := "Intel UHD";
    assert !MatchesAt(l, "NVIDIA", 1) by {
      assert Upper(l[2]) != Upper("NVIDIA"[1]);
    }
  }

  lemma NvidiaRtxIsDedicated(l: string)
    requires l == "NVIDIA RTX"
    ensures Mentions(l, DedicatedKeywords)
  {
    assert MatchesAt(l, DedicatedKeywords[0], 0);
  }

  lemma TwoAdaptersAreBare(names: seq<string>)
    requires names == ["Name", "Intel UHD", "NVIDIA RTX"]
    ensures forall i :: 0 <= i < |names| ==> IsBareName(names[i])
  {
    assert IsBareName("Name");
    assert IsBareName("Intel UHD");
    assert IsBareName("NVIDIA RTX");
  }

  /** A carriage return left by a CRLF line ending is trimmed away. */
  lemma TrimDropsCarriageReturn(v: string)
    requires v != [] && !IsTrimmable(v[0]) && !IsTrimmable(v[|v| - 1])
    ensures Trim(v + "\r") == v
  {
    var s := v + "\r";
    assert s[0] == v[0];
    assert s[..|s| - 1] == v;
    assert TrailingTrimmable(v) == 0;
    assert s[0..|s| - 1] == v;
  }
}
