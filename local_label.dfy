/**
 * The local version label: `ParseLocalFromInfoString` searches the loaded sector
 * file's name for
 *
 *     (25\d{2})\s*\/\s*([0-9]+)(?:-([0-9]+))?\s+[A-Z]{4}\s+(20\d{6})
 *
 * with `std::regex_search` (leftmost match) and reads the AIRAC cycle, the AIRAC
 * version and the optional package number from the first three groups.
 *
 * `IsLabelMatch` states declaratively what one match of the pattern is; `MatchAt`
 * is the matcher, anchored at one position, and `ParseLocal` takes the leftmost match.
 */
module LocalLabel {
  import opened Wrappers
  import opened Text

  /** `ParsedLocal`: the triple read from the label, and the whole label as the package name. */
  datatype ParsedLocal = ParsedLocal(cycle: nat, version: nat, package: nat, name: seq<char>)

  /**
   * The positions of one match of the label pattern:
   * `s[start..start+4]` is group 1, `slash` the `/`, `s[verStart..verEnd]` group 2,
   * `s[verEnd+1..pkgEnd]` group 3 when `pkgEnd > verEnd` (absent when they are equal),
   * `s[code..code+4]` the four letters and `s[date..date+8]` group 4.
   */
  datatype LabelMatch = LabelMatch(start: nat, slash: nat, verStart: nat, verEnd: nat, pkgEnd: nat, code: nat, date: nat)
  {
    /** Whether the optional `-n` group took part in the match. */
    predicate HasPackage() {
      pkgEnd != verEnd
    }
  }

  /** `(25\d{2})\s*\/\s*([0-9]+)` at `start`, with the `/` at `slash` and group 2 at `s[verStart..verEnd]`. */
  ghost predicate HeadMatches(s: seq<char>, start: nat, slash: nat, verStart: nat, verEnd: nat) {
    && start + 4 <= slash < verStart < verEnd <= |s|
    && s[start] == '2' && s[start + 1] == '5' && IsDigit(s[start + 2]) && IsDigit(s[start + 3])
    && All(s, start + 4, slash, IsSpace) && s[slash] == '/'
    && All(s, slash + 1, verStart, IsSpace)
    && All(s, verStart, verEnd, IsDigit)
  }

  /** `(?:-([0-9]+))?` at `verEnd`, ending at `pkgEnd`; the group is absent when the two are equal. */
  ghost predicate PackageMatches(s: seq<char>, verEnd: nat, pkgEnd: nat) {
    && verEnd <= pkgEnd <= |s|
    && (pkgEnd != verEnd ==> s[verEnd] == '-' && verEnd + 1 < pkgEnd && All(s, verEnd + 1, pkgEnd, IsDigit))
  }

  /** `\s+[A-Z]{4}\s+(20\d{6})` at `pkgEnd`, with the letters at `code` and group 4 at `date`. */
  ghost predicate TailMatches(s: seq<char>, pkgEnd: nat, code: nat, date: nat) {
    && pkgEnd < code && code + 4 < date && date + 8 <= |s|
    && All(s, pkgEnd, code, IsSpace)
    && All(s, code, code + 4, IsUpper) && All(s, code + 4, date, IsSpace)
    && s[date] == '2' && s[date + 1] == '0' && All(s, date + 2, date + 8, IsDigit)
  }

  /** `m` is a match of the label pattern in `s`, piece by piece as the pattern reads. */
  ghost predicate IsLabelMatch(s: seq<char>, m: LabelMatch) {
    && HeadMatches(s, m.start, m.slash, m.verStart, m.verEnd)
    && PackageMatches(s, m.verEnd, m.pkgEnd)
    && TailMatches(s, m.pkgEnd, m.code, m.date)
  }

  /** The values `std::stoi` reads from the groups of a match, with the whole label as the name. */
  function Captures(s: seq<char>, m: LabelMatch): ParsedLocal
    requires IsLabelMatch(s, m)
  {
    ParsedLocal(
      Value(s[m.start..m.start + 4]),
      Value(s[m.verStart..m.verEnd]),
      if m.HasPackage() then Value(s[m.verEnd + 1..m.pkgEnd]) else 0,
      s)
  }

  /** The cycle token, the slash and group 2 tried at `i`: the positions of `/` and of group 2. */
  function HeadAt(s: seq<char>, i: nat): (r: Option<(nat, nat, nat)>)
    requires i <= |s|
    ensures r.Some? ==> HeadMatches(s, i, r.value.0, r.value.1, r.value.2)
    ensures r.Some? && r.value.2 < |s| ==> !IsDigit(s[r.value.2])
  {
    if !(i + 4 <= |s| && s[i] == '2' && s[i + 1] == '5' && IsDigit(s[i + 2]) && IsDigit(s[i + 3])) then None
    else
      var slash := RunEnd(s, i + 4, IsSpace);
      if !(slash < |s| && s[slash] == '/') then None
      else
        var verStart := RunEnd(s, slash + 1, IsSpace);
        var verEnd := RunEnd(s, verStart, IsDigit);
        if verEnd == verStart then None else Some((slash, verStart, verEnd))
  }

  /** A head whose group 2 cannot be extended is the one `HeadAt` finds. */
  lemma HeadAtComplete(s: seq<char>, start: nat, slash: nat, verStart: nat, verEnd: nat)
    requires HeadMatches(s, start, slash, verStart, verEnd)
    requires verEnd < |s| ==> !IsDigit(s[verEnd])
    ensures HeadAt(s, start) == Some((slash, verStart, verEnd))
  {
    RunEndIs(s, start + 4, slash, IsSpace);
    RunEndIs(s, slash + 1, verStart, IsSpace);
    RunEndIs(s, verStart, verEnd, IsDigit);
  }

  /**
   * The end of the optional `-n` group at `verEnd`: past its digits when a `-`
   * and at least one digit follow, `verEnd` itself otherwise.
   */
  function PackageEnd(s: seq<char>, verEnd: nat): (pkgEnd: nat)
    requires verEnd <= |s|
    ensures PackageMatches(s, verEnd, pkgEnd)
    ensures pkgEnd != verEnd && pkgEnd < |s| ==> !IsDigit(s[pkgEnd])
  {
    if verEnd < |s| && s[verEnd] == '-' && RunEnd(s, verEnd + 1, IsDigit) > verEnd + 1
    then RunEnd(s, verEnd + 1, IsDigit)
    else verEnd
  }

  /** An optional group followed by whitespace is the one `PackageEnd` finds. */
  lemma PackageEndComplete(s: seq<char>, verEnd: nat, pkgEnd: nat)
    requires PackageMatches(s, verEnd, pkgEnd)
    requires pkgEnd < |s| && IsSpace(s[pkgEnd])
    ensures PackageEnd(s, verEnd) == pkgEnd
  {
    if pkgEnd != verEnd {
      RunEndIs(s, verEnd + 1, pkgEnd, IsDigit);
    }
  }

  /** The whitespace, the four letters, the whitespace and the date tried at `pkgEnd`: where the letters and the date start. */
  function TailAt(s: seq<char>, pkgEnd: nat): (r: Option<(nat, nat)>)
    requires pkgEnd <= |s|
    ensures r.Some? ==> TailMatches(s, pkgEnd, r.value.0, r.value.1)
  {
    var code := RunEnd(s, pkgEnd, IsSpace);
    if code == pkgEnd || !(code + 4 <= |s| && All(s, code, code + 4, IsUpper)) then None
    else
      var date := RunEnd(s, code + 4, IsSpace);
      if date == code + 4 || !(date + 8 <= |s| && s[date] == '2' && s[date + 1] == '0' && All(s, date + 2, date + 8, IsDigit))
      then None
      else Some((code, date))
  }

  /** Every tail is the one `TailAt` finds. */
  lemma TailAtComplete(s: seq<char>, pkgEnd: nat, code: nat, date: nat)
    requires TailMatches(s, pkgEnd, code, date)
    ensures TailAt(s, pkgEnd) == Some((code, date))
  {
    RunEndIs(s, pkgEnd, code, IsSpace);
    RunEndIs(s, code + 4, date, IsSpace);
  }

  /**
   * The pattern tried at position `i` alone. Every repetition in the pattern is
   * followed by a character its class excludes, so backtracking never helps and
   * each greedy run is the one the match uses.
   */
  function MatchAt(s: seq<char>, i: nat): (r: Option<LabelMatch>)
    requires i <= |s|
    ensures r.Some? ==> r.value.start == i && IsLabelMatch(s, r.value)
  {
    match HeadAt(s, i)
    case None => None
    case Some((slash, verStart, verEnd)) =>
      var pkgEnd := PackageEnd(s, verEnd);
      match TailAt(s, pkgEnd)
      case None => None
      case Some((code, date)) => Some(LabelMatch(i, slash, verStart, verEnd, pkgEnd, code, date))
  }

  /** Every match of the pattern is found by `MatchAt` at its start, and is the only match there. */
  lemma MatchAtComplete(s: seq<char>, m: LabelMatch)
    requires IsLabelMatch(s, m)
    ensures MatchAt(s, m.start) == Some(m)
  {
    assert IsSpace(s[m.pkgEnd]);
    assert !IsDigit(s[m.verEnd]) by {
      if !m.HasPackage() { assert s[m.verEnd] == s[m.pkgEnd]; }
    }
    HeadAtComplete(s, m.start, m.slash, m.verStart, m.verEnd);
    PackageEndComplete(s, m.verEnd, m.pkgEnd);
    TailAtComplete(s, m.pkgEnd, m.code, m.date);
  }

  /** The anchored matcher at every position of `s`; positions past the end never match. */
  function MatcherOf(s: seq<char>): nat -> Option<LabelMatch> {
    (j: nat) => if j <= |s| then MatchAt(s, j) else None
  }

  /** A cycle token `25dd` reads as a number from 2500 to 2599. */
  lemma CycleTokenValue(ds: seq<char>)
    requires |ds| == 4 && ds[0] == '2' && ds[1] == '5' && IsDigit(ds[2]) && IsDigit(ds[3])
    ensures 2500 <= Value(ds) <= 2599
  {
    assert ds[..1][..0] == [];
    assert Value(ds[..1]) == 2;
    assert ds[..2][..1] == ds[..1];
    assert Value(ds[..2]) == 25;
    assert ds[..3][..2] == ds[..2];
  }

  /**
   * `ParseLocalFromInfoString`: `None` when the label holds no match (the
   * source then returns false and leaves its output alone); otherwise the groups
   * of the leftmost match, with the whole label as the package name.
   */
  function ParseLocal(s: seq<char>): (r: Option<ParsedLocal>)
    ensures r.Some? ==> 2500 <= r.value.cycle <= 2599 && r.value.name == s
    ensures r.Some? ==> exists m :: IsLabelMatch(s, m) && r.value == Captures(s, m)
  {
    match Leftmost(MatcherOf(s), 0, |s|)
    case None => None
    case Some((_, m)) =>
      CycleTokenValue(s[m.start..m.start + 4]);
      Some(Captures(s, m))
  }

  /** There is no version exactly when no part of the label matches the pattern. */
  lemma ParseLocalNoneIffNoMatch(s: seq<char>)
    ensures ParseLocal(s).None? <==> forall m :: !IsLabelMatch(s, m)
  {
    if exists m :: IsLabelMatch(s, m) {
      var m :| IsLabelMatch(s, m);
      ParseLocalFindsMatch(s, m);
    }
  }

  /** A label holding a match always yields a version. */
  lemma ParseLocalFindsMatch(s: seq<char>, m: LabelMatch)
    requires IsLabelMatch(s, m)
    ensures ParseLocal(s).Some?
  {
    MatchAtComplete(s, m);
    var at := MatcherOf(s);
    assert at(m.start).Some?;
    assert Leftmost(at, 0, |s|).Some?;
  }

  /**
   * The values come from the leftmost match: whichever match starts first in the
   * label decides the result, and it is read out of that match's groups.
   */
  lemma ParseLocalLeftmost(s: seq<char>, m: LabelMatch)
    requires IsLabelMatch(s, m)
    requires forall m' :: IsLabelMatch(s, m') ==> m.start <= m'.start
    ensures ParseLocal(s) == Some(Captures(s, m))
  {
    MatchAtComplete(s, m);
    assert MatcherOf(s)(m.start).Some?;
    var f := Leftmost(MatcherOf(s), 0, |s|);
    assert f.Some?;
    assert MatcherOf(s)(f.value.0).Some?;
    assert f.value.0 == m.start;
  }

  /** A label without the optional `-n` group has package number 0. */
  lemma ParseLocalPackageDefault(s: seq<char>, m: LabelMatch)
    requires IsLabelMatch(s, m) && !m.HasPackage()
    requires forall m' :: IsLabelMatch(s, m') ==> m.start <= m'.start
    ensures ParseLocal(s).Some? && ParseLocal(s).value.package == 0
  {
    ParseLocalLeftmost(s, m);
  }

  /**
   * The parts of a well-formed label: the version triple spelled in decimal, the
   * four-letter code, the date, and the whitespace around the slash and before
   * the code and the date.
   */
  datatype LabelParts = LabelParts(
    cycle: nat, version: nat, package: Option<nat>, code: seq<char>, date: seq<char>,
    beforeSlash: seq<char>, afterSlash: seq<char>, beforeCode: seq<char>, beforeDate: seq<char>)
  {
    /** The parts fit the pattern: a `25dd` cycle, four capitals, a `20dddddd` date, whitespace where whitespace goes. */
    ghost predicate Valid() {
      && 2500 <= cycle <= 2599
      && |code| == 4 && Each(code, IsUpper)
      && |date| == 8 && date[0] == '2' && date[1] == '0' && (forall k :: 2 <= k < 8 ==> IsDigit(date[k]))
      && Each(beforeSlash, IsSpace) && Each(afterSlash, IsSpace)
      && |beforeCode| > 0 && Each(beforeCode, IsSpace)
      && |beforeDate| > 0 && Each(beforeDate, IsSpace)
    }

    /** The digits of the optional `-n` group, when it is spelled. */
    function PackageDigits(): Option<seq<char>> {
      if package.Some? then Some(Decimal(package.value)) else None
    }

    /** The label text, e.g. `2510/2-2 LBSR 20251013`. */
    function Spell(): seq<char> {
      Decimal(cycle) + beforeSlash + ['/'] + afterSlash + Decimal(version) + Dashed(PackageDigits())
        + beforeCode + code + beforeDate + date
    }

    /** Where the pieces of the spelled label lie when it starts at `o`. */
    function MatchFrom(o: nat): LabelMatch {
      var slash := o + |Decimal(cycle)| + |beforeSlash|;
      var verStart := slash + 1 + |afterSlash|;
      var verEnd := verStart + |Decimal(version)|;
      var pkgEnd := verEnd + |Dashed(PackageDigits())|;
      var code := pkgEnd + |beforeCode|;
      LabelMatch(o, slash, verStart, verEnd, pkgEnd, code, code + |this.code| + |beforeDate|)
    }
  }

  /** The optional group as spelled: a dash and the digits, or nothing. */
  function Dashed(pk: Option<seq<char>>): seq<char> {
    if pk.Some? then ['-'] + pk.value else []
  }


  /** A cycle from 2500 to 2599 is spelled as four characters starting with `25`. */
  lemma CycleDecimal(n: nat)
    requires 2500 <= n <= 2599
    ensures |Decimal(n)| == 4 && Decimal(n)[0] == '2' && Decimal(n)[1] == '5'
  {
    assert Decimal(25) == ['2', '5'];
    assert Decimal(n / 10) == Decimal(25) + [DigitChar(n / 10 % 10)];
  }

  /** An occurrence of the ten pieces of a label, one after another, is an occurrence of each piece at the positions of `m`. */
  lemma Pieces(s: seq<char>, m: LabelMatch, c: seq<char>, bs: seq<char>, as': seq<char>, v: seq<char>, pk: seq<char>,
               bc: seq<char>, code: seq<char>, bd: seq<char>, date: seq<char>)
    requires |c| == 4 && |code| == 4
    requires m.slash == m.start + 4 + |bs| && m.verStart == m.slash + 1 + |as'| && m.verEnd == m.verStart + |v|
    requires m.pkgEnd == m.verEnd + |pk| && m.code == m.pkgEnd + |bc| && m.date == m.code + 4 + |bd|
    requires At(s, m.start, c + bs + ['/'] + as' + v + pk + bc + code + bd + date)
    ensures At(s, m.start, c) && At(s, m.start + 4, bs) && At(s, m.slash, ['/'])
    ensures At(s, m.slash + 1, as') && At(s, m.verStart, v) && At(s, m.verEnd, pk)
    ensures At(s, m.pkgEnd, bc) && At(s, m.code, code) && At(s, m.code + 4, bd) && At(s, m.date, date)
  {
    var o := m.start;
    AtSplit(s, o, c + bs + ['/'] + as' + v + pk + bc + code + bd, date);
    AtSplit(s, o, c + bs + ['/'] + as' + v + pk + bc + code, bd);
    AtSplit(s, o, c + bs + ['/'] + as' + v + pk + bc, code);
    AtSplit(s, o, c + bs + ['/'] + as' + v + pk, bc);
    AtSplit(s, o, c + bs + ['/'] + as' + v, pk);
    AtSplit(s, o, c + bs + ['/'] + as', v);
    AtSplit(s, o, c + bs + ['/'], as');
    AtSplit(s, o, c + bs, ['/']);
    AtSplit(s, o, c, bs);
  }

  /** `25dd \s* / \s* digits`, piece by piece at the positions of `m`, is the head of a match. */
  lemma HeadOf(s: seq<char>, m: LabelMatch, c: seq<char>, bs: seq<char>, as': seq<char>, v: seq<char>)
    requires |c| == 4 && c[0] == '2' && c[1] == '5' && IsDigit(c[2]) && IsDigit(c[3])
    requires Each(bs, IsSpace) && Each(as', IsSpace) && |v| > 0 && Each(v, IsDigit)
    requires m.slash == m.start + 4 + |bs| && m.verStart == m.slash + 1 + |as'| && m.verEnd == m.verStart + |v|
    requires At(s, m.start, c) && At(s, m.start + 4, bs) && At(s, m.slash, ['/'])
    requires At(s, m.slash + 1, as') && At(s, m.verStart, v)
    ensures HeadMatches(s, m.start, m.slash, m.verStart, m.verEnd)
    ensures s[m.start..m.start + 4] == c && s[m.verStart..m.verEnd] == v
  {
    var o := m.start;
    AtChars(s, o + 4, bs, IsSpace);
    AtChars(s, m.slash + 1, as', IsSpace);
    AtChars(s, m.verStart, v, IsDigit);
    AtSlice(s, o, c);
    AtSlice(s, m.verStart, v);
    assert s[o] == c[0] && s[o + 1] == c[1] && s[o + 2] == c[2] && s[o + 3] == c[3];
    assert s[m.slash + 0] == ['/'][0];
  }

  /** `-digits` at `m.verEnd` is the optional group of a match, present. */
  lemma PackageOf(s: seq<char>, m: LabelMatch, pk: seq<char>)
    requires |pk| > 0 && Each(pk, IsDigit)
    requires m.pkgEnd == m.verEnd + 1 + |pk|
    requires At(s, m.verEnd, ['-'] + pk)
    ensures PackageMatches(s, m.verEnd, m.pkgEnd) && m.HasPackage()
    ensures s[m.verEnd + 1..m.pkgEnd] == pk
  {
    var o := m.verEnd;
    AtSplit(s, o, ['-'], pk);
    AtChars(s, o + 1, pk, IsDigit);
    AtSlice(s, o + 1, pk);
    assert s[o + 0] == ['-'][0];
  }

  /** `\s+ code \s+ date`, piece by piece at the positions of `m`, is the tail of a match. */
  lemma TailOf(s: seq<char>, m: LabelMatch, bc: seq<char>, code: seq<char>, bd: seq<char>, date: seq<char>)
    requires |bc| > 0 && Each(bc, IsSpace) && |bd| > 0 && Each(bd, IsSpace)
    requires |code| == 4 && Each(code, IsUpper)
    requires |date| == 8 && date[0] == '2' && date[1] == '0' && forall k :: 2 <= k < 8 ==> IsDigit(date[k])
    requires m.code == m.pkgEnd + |bc| && m.date == m.code + 4 + |bd|
    requires At(s, m.pkgEnd, bc) && At(s, m.code, code) && At(s, m.code + 4, bd) && At(s, m.date, date)
    ensures TailMatches(s, m.pkgEnd, m.code, m.date)
  {
    AtChars(s, m.pkgEnd, bc, IsSpace);
    AtChars(s, m.code, code, IsUpper);
    AtChars(s, m.code + 4, bd, IsSpace);
    var d := m.date;
    assert s[d + 0] == '2' && s[d + 1] == '0';
    forall k | d + 2 <= k < d + 8 ensures IsDigit(s[k]) { assert s[d + (k - d)] == date[k - d]; }
  }

  /** Label pieces lying one after another at the positions of `m` make `m` a match, with the pieces as its groups. */
  lemma PiecesMatch(s: seq<char>, m: LabelMatch, c: seq<char>, bs: seq<char>, as': seq<char>, v: seq<char>,
                    pk: Option<seq<char>>, bc: seq<char>, code: seq<char>, bd: seq<char>, date: seq<char>)
    requires |c| == 4 && c[0] == '2' && c[1] == '5' && IsDigit(c[2]) && IsDigit(c[3])
    requires Each(bs, IsSpace) && Each(as', IsSpace) && |v| > 0 && Each(v, IsDigit)
    requires pk.Some? ==> |pk.value| > 0 && Each(pk.value, IsDigit)
    requires |bc| > 0 && Each(bc, IsSpace) && |bd| > 0 && Each(bd, IsSpace)
    requires |code| == 4 && Each(code, IsUpper)
    requires |date| == 8 && date[0] == '2' && date[1] == '0' && forall k :: 2 <= k < 8 ==> IsDigit(date[k])
    requires m.slash == m.start + 4 + |bs| && m.verStart == m.slash + 1 + |as'| && m.verEnd == m.verStart + |v|
    requires m.pkgEnd == m.verEnd + (if pk.Some? then 1 + |pk.value| else 0)
    requires m.code == m.pkgEnd + |bc| && m.date == m.code + 4 + |bd|
    requires At(s, m.start, c + bs + ['/'] + as' + v + Dashed(pk) + bc + code + bd + date)
    ensures IsLabelMatch(s, m)
    ensures s[m.start..m.start + 4] == c && s[m.verStart..m.verEnd] == v
    ensures m.HasPackage() <==> pk.Some?
    ensures pk.Some? ==> s[m.verEnd + 1..m.pkgEnd] == pk.value
  {
    Pieces(s, m, c, bs, as', v, Dashed(pk), bc, code, bd, date);
    HeadOf(s, m, c, bs, as', v);
    if pk.Some? {
      PackageOf(s, m, pk.value);
    }
    TailOf(s, m, bc, code, bd, date);
  }

  /** The spelled label, occurring at `o`, is a match of the pattern whose groups are the spelled numbers. */
  lemma SpelledMatch(s: seq<char>, p: LabelParts, o: nat)
    requires p.Valid() && At(s, o, p.Spell())
    ensures IsLabelMatch(s, p.MatchFrom(o))
    ensures Captures(s, p.MatchFrom(o)) == ParsedLocal(p.cycle, p.version, p.package.GetOr(0), s)
  {
    var c, v, pk := Decimal(p.cycle), Decimal(p.version), p.PackageDigits();
    CycleDecimal(p.cycle);
    var m := p.MatchFrom(o);
    PiecesMatch(s, m, c, p.beforeSlash, p.afterSlash, v, pk, p.beforeCode, p.code, p.beforeDate, p.date);
    CapturesOf(s, m, c, v, pk);
  }

  /** The groups of a match whose texts are known read as the values of those texts. */
  lemma CapturesOf(s: seq<char>, m: LabelMatch, c: seq<char>, v: seq<char>, pk: Option<seq<char>>)
    requires IsLabelMatch(s, m)
    requires s[m.start..m.start + 4] == c && s[m.verStart..m.verEnd] == v
    requires m.HasPackage() <==> pk.Some?
    requires pk.Some? ==> s[m.verEnd + 1..m.pkgEnd] == pk.value
    ensures Captures(s, m) == ParsedLocal(Value(c), Value(v), if pk.Some? then Value(pk.value) else 0, s)
  {
  }

  /**
   * Reading back a spelled label: with a prefix that contains no `2` (so no
   * earlier match can start there) and any suffix, the parser recovers the
   * version triple whatever whitespace separates the parts, and the package
   * number is 0 when the `-n` group is left out.
   */
  lemma ParseLocalSpelled(pre: seq<char>, p: LabelParts, post: seq<char>)
    requires p.Valid()
    requires forall k :: 0 <= k < |pre| ==> pre[k] != '2'
    ensures var s := pre + p.Spell() + post;
      ParseLocal(s) == Some(ParsedLocal(p.cycle, p.version, p.package.GetOr(0), s))
  {
    var s := pre + p.Spell() + post;
    AtMiddle(pre, p.Spell(), post);
    SpelledMatch(s, p, |pre|);
    NoMatchBefore(pre, p.Spell(), post);
    ParseLocalLeftmost(s, p.MatchFrom(|pre|));
  }

  /** Every match starts with `2`, so none starts in a prefix without one. */
  lemma NoMatchBefore(pre: seq<char>, mid: seq<char>, post: seq<char>)
    requires forall k :: 0 <= k < |pre| ==> pre[k] != '2'
    ensures forall m :: IsLabelMatch(pre + mid + post, m) ==> |pre| <= m.start
  {
    var s := pre + mid + post;
    forall k | 0 <= k < |pre| ensures s[k] != '2' {
      assert s[k] == (pre + mid)[k];
    }
  }

  /** The cycle of the examples, spelled. */
  lemma Decimal2510()
    ensures Decimal(2510) == "2510"
  {
    assert Decimal(2) == "2";
    assert Decimal(25) == Decimal(2) + "5";
    assert Decimal(251) == Decimal(25) + "1";
    assert Decimal(2510) == Decimal(251) + "0";
  }

  /** The label of the usage hint, `2510/2-2 LBSR 20251013`, as parts. */
  function HintLabel(): LabelParts {
    LabelParts(2510, 2, Some(2), "LBSR", "20251013", "", "", " ", " ")
  }

  /** The hint label fits the pattern. */
  lemma HintLabelValid()
    ensures HintLabel().Valid()
  {
  }

  /** The hint label spells as shown. */
  lemma HintLabelSpelled()
    ensures HintLabel().Spell() == "2510/2-2 LBSR 20251013"
  {
    Decimal2510();
    assert Decimal(2) == "2";
  }

  /** The label of the usage hint, anywhere in a sector name whose text before it has no `2`. */
  lemma ParseLocalHintExample(pre: seq<char>, post: seq<char>)
    requires forall k :: 0 <= k < |pre| ==> pre[k] != '2'
    ensures var s := pre + "2510/2-2 LBSR 20251013" + post;
      ParseLocal(s) == Some(ParsedLocal(2510, 2, 2, s))
  {
    HintLabelValid();
    HintLabelSpelled();
    ParseLocalSpelled(pre, HintLabel(), post);
  }

  /** A label without the package group, `2510 / 3 LBSR 20251013`, as parts. */
  function BareLabel(): LabelParts {
    LabelParts(2510, 3, None, "LBSR", "20251013", " ", " ", " ", " ")
  }

  /** The bare label fits the pattern. */
  lemma BareLabelValid()
    ensures BareLabel().Valid()
  {
  }

  /** The bare label spells as shown. */
  lemma BareLabelSpelled()
    ensures BareLabel().Spell() == "2510 / 3 LBSR 20251013"
  {
    Decimal2510();
    assert Decimal(3) == "3";
  }

  /** Without the `-n` group the package is 0; spaces may surround the slash. */
  lemma ParseLocalNoPackageExample(pre: seq<char>, post: seq<char>)
    requires forall k :: 0 <= k < |pre| ==> pre[k] != '2'
    ensures var s := pre + "2510 / 3 LBSR 20251013" + post;
      ParseLocal(s) == Some(ParsedLocal(2510, 3, 0, s))
  {
    BareLabelValid();
    BareLabelSpelled();
    ParseLocalSpelled(pre, BareLabel(), post);
  }
}
