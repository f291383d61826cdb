/**
 * Version extraction from file text. The two regular expressions of the
 * launcher, `(\d{4}\.\d{2}\.\d{2}(?:-[A-Za-z0-9]+)?)` and
 * `(\d{2}\.\d{2}\.\d{4}(?:-[A-Za-z0-9]+)?)`, are written out as explicit
 * matchers: three digit groups separated by dots, then an optional build tag
 * `-` followed by one or more ASCII letters or digits. A search returns the
 * leftmost position where the pattern matches, and there the greedy
 * quantifiers take the longest match.
 */
module VersionText {
  import opened Wrappers
  import opened Decimal
  import opened Substrings

  /** Widths of the three digit groups of a date-shaped version. */
  datatype Pattern = Pattern(w1: nat, w2: nat, w3: nat)

  /** `YYYY.MM.DD[-tag]`, tried first. */
  const YearFirst: Pattern := Pattern(4, 2, 2)
  /** `DD.MM.YYYY[-tag]`, tried second. */
  const DayFirst: Pattern := Pattern(2, 2, 4)
  const Patterns: seq<Pattern> := [YearFirst, DayFirst]

  /** `[A-Za-z0-9]` */
  predicate IsAlnum(c: char)
  {
    ('A' <= c <= 'Z') || ('a' <= c <= 'z') || ('0' <= c <= '9')
  }

  /** Length of the mandatory part: the digits and the two dots. */
  function BaseLength(p: Pattern): nat
  {
    p.w1 + p.w2 + p.w3 + 2
  }

  /** `\d{n}` at position `i`: `n` ASCII digits. */
  predicate DigitsAt(s: string, i: nat, n: nat)
    decreases n
  {
    n == 0 || (i < |s| && IsDigit(s[i]) && DigitsAt(s, i + 1, n - 1))
  }

  /** The mandatory part of `p` matches `s` at position `i`. */
  predicate BaseMatchAt(p: Pattern, s: string, i: nat)
  {
    && i + BaseLength(p) <= |s|
    && DigitsAt(s, i, p.w1)
    && s[i + p.w1] == '.'
    && DigitsAt(s, i + p.w1 + 1, p.w2)
    && s[i + p.w1 + 1 + p.w2] == '.'
    && DigitsAt(s, i + p.w1 + p.w2 + 2, p.w3)
  }

  /** `v` as a whole has the shape of `p`: the mandatory part, then nothing or `-` and one or more alphanumerics. */
  predicate IsVersionShaped(p: Pattern, v: string)
  {
    && BaseMatchAt(p, v, 0)
    && (|v| == BaseLength(p)
        || (|v| > BaseLength(p) + 1 && v[BaseLength(p)] == '-'
            && forall k :: BaseLength(p) + 1 <= k < |v| ==> IsAlnum(v[k])))
  }

  /** The `n` characters of `s` from position `i` have the shape of `p`. */
  predicate ShapedAt(p: Pattern, s: string, i: nat, n: nat)
  {
    i + n <= |s| && IsVersionShaped(p, s[i..i + n])
  }

  /** Length of the run of alphanumerics starting at `i` (the greedy `[A-Za-z0-9]+`). */
  function AlnumRun(s: string, i: nat): (n: nat)
    requires i <= |s|
    ensures i + n <= |s|
    ensures forall k :: i <= k < i + n ==> IsAlnum(s[k])
    ensures i + n == |s| || !IsAlnum(s[i + n])
    decreases |s| - i
  {
    if i < |s| && IsAlnum(s[i]) then 1 + AlnumRun(s, i + 1) else 0
  }

  /** Length of the optional build tag `-[A-Za-z0-9]+` at `j`; 0 when absent. */
  function TagLength(s: string, j: nat): (n: nat)
    requires j <= |s|
    ensures j + n <= |s|
    ensures n > 0 <==> j + 1 < |s| && s[j] == '-' && IsAlnum(s[j + 1])
    ensures n > 0 ==> n >= 2 && forall k :: j < k < j + n ==> IsAlnum(s[k])
    ensures n > 0 ==> j + n == |s| || !IsAlnum(s[j + n])
  {
    if j < |s| && s[j] == '-' && AlnumRun(s, j + 1) > 0 then 1 + AlnumRun(s, j + 1) else 0
  }

  /**
   * Length of the match of `p` at position `i`, or `None` when `p` does not
   * match there. The match is the longest version-shaped prefix of `s[i..]`,
   * which is what the greedy quantifiers of the regular expression select.
   */
  function MatchLength(p: Pattern, s: string, i: nat): (m: Option<nat>)
    requires i <= |s|
    ensures m.Some? ==> ShapedAt(p, s, i, m.value)
    ensures m.Some? ==> forall n: nat :: m.value < n ==> !ShapedAt(p, s, i, n)
    ensures m.None? ==> forall n: nat :: !ShapedAt(p, s, i, n)
  {
    if BaseMatchAt(p, s, i) then
      var L := BaseLength(p);
      var n := L + TagLength(s, i + L);
      ShapedSlice(p, s, i, n);
      LongestShaped(p, s, i, n);
      Some(n)
    else
      NoBaseNoShape(p, s, i);
      None
  }

  /** Digit runs read the same in `s` and in a slice of it. */
  lemma {:induction false} DigitsAtSlice(s: string, i: nat, n: nat, j: nat, m: nat)
    requires i + n <= |s| && j + m <= n
    ensures DigitsAt(s, i + j, m) <==> DigitsAt(s[i..i + n], j, m)
    decreases m
  {
    if m > 0 {
      DigitsAtSlice(s, i, n, j + 1, m - 1);
    }
  }

  lemma BaseMatchSlice(p: Pattern, s: string, i: nat, n: nat)
    requires i + n <= |s| && BaseLength(p) <= n
    ensures BaseMatchAt(p, s, i) <==> BaseMatchAt(p, s[i..i + n], 0)
  {
    DigitsAtSlice(s, i, n, 0, p.w1);
    DigitsAtSlice(s, i, n, p.w1 + 1, p.w2);
    DigitsAtSlice(s, i, n, p.w1 + p.w2 + 2, p.w3);
  }

  lemma ShapedSlice(p: Pattern, s: string, i: nat, n: nat)
    requires BaseMatchAt(p, s, i)
    requires n == BaseLength(p) + TagLength(s, i + BaseLength(p))
    ensures ShapedAt(p, s, i, n)
  {
    var L := BaseLength(p);
    BaseMatchSlice(p, s, i, n);
    var v := s[i..i + n];
    if n > L {
      assert v[L] == s[i + L];
      forall k | L + 1 <= k < |v| ensures IsAlnum(v[k]) {
        assert v[k] == s[i + k];
      }
    }
  }

  lemma LongestShaped(p: Pattern, s: string, i: nat, n: nat)
    requires BaseMatchAt(p, s, i)
    requires n == BaseLength(p) + TagLength(s, i + BaseLength(p))
    ensures forall n': nat :: n < n' ==> !ShapedAt(p, s, i, n')
  {
    var L := BaseLength(p);
    forall n': nat | n < n'
      ensures !ShapedAt(p, s, i, n')
    {
      if i + n' <= |s| {
        var v := s[i..i + n'];
        if TagLength(s, i + L) == 0 {
          if s[i + L] != '-' {
            assert v[L] != '-';
          } else if n' > L + 1 {
            assert AlnumRun(s, i + L + 1) == 0;
            assert !IsAlnum(v[L + 1]);
          }
        } else {
          assert !IsAlnum(v[n]);
        }
      }
    }
  }

  lemma NoBaseNoShape(p: Pattern, s: string, i: nat)
    requires i <= |s| && !BaseMatchAt(p, s, i)
    ensures forall n: nat :: !ShapedAt(p, s, i, n)
  {
    forall n: nat | i + n <= |s|
      ensures !ShapedAt(p, s, i, n)
    {
      if BaseLength(p) <= n {
        BaseMatchSlice(p, s, i, n);
      }
    }
  }

  /** A match: where it starts and how long it is. */
  datatype Span = Span(start: nat, len: nat)

  /** `p` matches `s` nowhere. */
  ghost predicate NoMatch(p: Pattern, s: string)
  {
    forall i :: 0 <= i <= |s| ==> MatchLength(p, s, i).None?
  }

  /** `Span(i, n)` is the leftmost match of `p` in `s`. */
  ghost predicate LeftmostMatch(p: Pattern, s: string, i: nat, n: nat)
  {
    && i <= |s|
    && MatchLength(p, s, i) == Some(n)
    && forall j :: 0 <= j < i ==> MatchLength(p, s, j).None?
  }

  /** The leftmost match of `p` in `s` at or after `from` (what `String.prototype.match` finds). */
  function Search(p: Pattern, s: string, from: nat): (m: Option<Span>)
    requires from <= |s|
    ensures m.Some? ==> from <= m.value.start <= |s| && MatchLength(p, s, m.value.start) == Some(m.value.len)
    ensures m.Some? ==> forall j :: from <= j < m.value.start ==> MatchLength(p, s, j).None?
    ensures m.None? ==> forall j :: from <= j <= |s| ==> MatchLength(p, s, j).None?
    decreases |s| - from
  {
    match MatchLength(p, s, from)
    case Some(n) => Some(Span(from, n))
    case None => if from == |s| then None else Search(p, s, from + 1)
  }

  /**
   * `extractVersionFromText`: nothing for empty text; otherwise the leftmost
   * `YYYY.MM.DD[-tag]` match, or failing that the leftmost `DD.MM.YYYY[-tag]`
   * match, or nothing.
   */
  function ExtractVersionFromText(content: string): (r: Option<string>)
    ensures content == "" ==> r.None?
    ensures r.Some? ==> IsSubstring(r.value, content)
    ensures r.Some? ==> IsVersionShaped(YearFirst, r.value) || IsVersionShaped(DayFirst, r.value)
    ensures r.Some? && !NoMatch(YearFirst, content) ==>
      exists i: nat, n: nat :: LeftmostMatch(YearFirst, content, i, n) && r.value == content[i..i + n]
    ensures r.Some? && NoMatch(YearFirst, content) ==>
      exists i: nat, n: nat :: LeftmostMatch(DayFirst, content, i, n) && r.value == content[i..i + n]
    ensures r.None? <==> content == "" || (NoMatch(YearFirst, content) && NoMatch(DayFirst, content))
  {
    if content == "" then None
    else
      match Search(YearFirst, content, 0)
      case Some(m) =>
        assert LeftmostMatch(YearFirst, content, m.start, m.len);
        assert OccursAt(content[m.start..m.start + m.len], content, m.start);
        Some(content[m.start..m.start + m.len])
      case None =>
        match Search(DayFirst, content, 0)
        case Some(m) =>
          assert LeftmostMatch(DayFirst, content, m.start, m.len);
          assert OccursAt(content[m.start..m.start + m.len], content, m.start);
          Some(content[m.start..m.start + m.len])
        case None => None
  }

  /** Text without a single digit holds no version. */
  lemma NoDigitsNoVersion(content: string)
    requires forall k :: 0 <= k < |content| ==> !IsDigit(content[k])
    ensures ExtractVersionFromText(content) == None
  {
    forall p, i | p in Patterns && 0 <= i <= |content|
      ensures MatchLength(p, content, i).None?
    {
      assert !DigitsAt(content, i, p.w1) by {
        if i < |content| {
          assert !IsDigit(content[i]);
        }
      }
    }
  }

  /** Plain words hold no version. */
  lemma ExtractVersionNoMatch()
    ensures ExtractVersionFromText("no version here") == None
  {
    NoDigitsNoVersion("no version here");
  }

  /** A day-first date is found when no year-first date is present. */
  lemma ExtractVersionDayFirst()
    ensures ExtractVersionFromText("11.03.2024") == Some("11.03.2024")
  {
    var s := "11.03.2024";
    assert MatchLength(DayFirst, s, 0) == Some(10);
    assert Search(YearFirst, s, 0) == None;
    assert s[0..10] == s;
  }

  /** The build tag is taken greedily and stops at the first non-alphanumeric. */
  lemma ExtractVersionWithTag()
    ensures ExtractVersionFromText("2024.03.11-abc123" + " stuff") == Some("2024.03.11-abc123")
  {
    var v := "2024.03.11-abc123";
    var s := v + " stuff";
    assert AlnumRun(s, 17) == 0;
    assert AlnumRun(s, 16) == 1;
    assert AlnumRun(s, 15) == 2;
    assert AlnumRun(s, 14) == 3;
    assert AlnumRun(s, 13) == 4;
    assert AlnumRun(s, 12) == 5;
    assert AlnumRun(s, 11) == 6;
    assert MatchLength(YearFirst, s, 0) == Some(17);
    assert Search(YearFirst, s, 0) == Some(Span(0, 17));
    assert s[0..17] == v;
  }
}
