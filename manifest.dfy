/**
 * The remote manifest: `RegGet` returns group 1 of the first match of a
 * `"key" : value` pattern anywhere in the body, or "" when there is none, and
 * `ParseRemoteJson` reads six such fields. It is a substring search, not a JSON
 * parser: nesting, escapes and duplicate keys play no part, and the first
 * occurrence of a key wins.
 *
 * The two value shapes the plugin uses are
 *
 *     "key"\s*:\s*(\d+)          numbers
 *     "key"\s*:\s*"([^"]*)"      quoted strings
 *
 * `IsFieldMatch` states declaratively what one match is; `FieldAt` is the
 * matcher anchored at one position and `RegGet` takes the leftmost match.
 */
module Manifest {
  import opened Wrappers
  import opened Text
  import opened Versions

  /** The two value shapes of a field pattern. */
  datatype FieldKind = Number | Quoted

  /**
   * The positions of one match of a field pattern: the opening quote of the key
   * at `start`, the colon at `colon`, and group 1 at `s[valStart..valEnd]`.
   */
  datatype FieldMatch = FieldMatch(start: nat, colon: nat, valStart: nat, valEnd: nat)

  /** The key in double quotes, as the pattern spells it. */
  function KeyToken(key: seq<char>): (t: seq<char>)
    ensures |t| == |key| + 2 && t[0] == '"' && t[|t| - 1] == '"'
  {
    ['"'] + key + ['"']
  }

  /** `"key"\s*:` at `start`, with the colon at `colon`. */
  ghost predicate KeyMatches(s: seq<char>, key: seq<char>, start: nat, colon: nat) {
    && start + |key| + 2 <= colon < |s|
    && s[start..start + |key| + 2] == KeyToken(key)
    && All(s, start + |key| + 2, colon, IsSpace) && s[colon] == ':'
  }

  /**
   * `\s*(\d+)` or `\s*"([^"]*)"` after the colon, with group 1 at
   * `s[valStart..valEnd]`. A number is the whole digit run, as the greedy `\d+`
   * takes it; a quoted value runs up to the next double quote.
   */
  ghost predicate ValueMatches(s: seq<char>, kind: FieldKind, colon: nat, valStart: nat, valEnd: nat) {
    && colon < valStart <= valEnd <= |s|
    && match kind
       case Number =>
         && All(s, colon + 1, valStart, IsSpace)
         && valStart < valEnd && All(s, valStart, valEnd, IsDigit)
         && (valEnd < |s| ==> !IsDigit(s[valEnd]))
       case Quoted =>
         && colon + 1 < valStart && All(s, colon + 1, valStart - 1, IsSpace) && s[valStart - 1] == '"'
         && All(s, valStart, valEnd, IsNotQuote) && valEnd < |s| && s[valEnd] == '"'
  }

  /** `f` is a match of the field pattern for `key` in `s`. */
  ghost predicate IsFieldMatch(s: seq<char>, key: seq<char>, kind: FieldKind, f: FieldMatch) {
    KeyMatches(s, key, f.start, f.colon) && ValueMatches(s, kind, f.colon, f.valStart, f.valEnd)
  }

  /** Some match of the field pattern for `key` occurs in `s`. */
  ghost predicate HasField(s: seq<char>, key: seq<char>, kind: FieldKind) {
    exists f :: IsFieldMatch(s, key, kind, f)
  }

  /** `"key"\s*:` anchored at `i`: the position of the colon. */
  function KeyAt(s: seq<char>, key: seq<char>, i: nat): (r: Option<nat>)
    ensures r.Some? ==> KeyMatches(s, key, i, r.value)
  {
    if i + |key| + 2 <= |s| && s[i..i + |key| + 2] == KeyToken(key) then
      var colon := RunEnd(s, i + |key| + 2, IsSpace);
      if colon < |s| && s[colon] == ':' then Some(colon) else None
    else None
  }

  /** Every key occurrence is found by `KeyAt`. */
  lemma KeyAtComplete(s: seq<char>, key: seq<char>, start: nat, colon: nat)
    requires KeyMatches(s, key, start, colon)
    ensures KeyAt(s, key, start) == Some(colon)
  {
    RunEndIs(s, start + |key| + 2, colon, IsSpace);
  }

  /** The value after the colon at `colon`: the bounds of group 1. */
  function ValueAfter(s: seq<char>, kind: FieldKind, colon: nat): (r: Option<(nat, nat)>)
    requires colon < |s|
    ensures r.Some? ==> ValueMatches(s, kind, colon, r.value.0, r.value.1)
  {
    var vs := RunEnd(s, colon + 1, IsSpace);
    match kind
    case Number =>
      var ve := RunEnd(s, vs, IsDigit);
      if vs < ve then Some((vs, ve)) else None
    case Quoted =>
      if vs < |s| && s[vs] == '"' then
        var ve := RunEnd(s, vs + 1, IsNotQuote);
        if ve < |s| then Some((vs + 1, ve)) else None
      else None
  }

  /** Every value is found by `ValueAfter`. */
  lemma ValueAfterComplete(s: seq<char>, kind: FieldKind, colon: nat, valStart: nat, valEnd: nat)
    requires colon < |s| && ValueMatches(s, kind, colon, valStart, valEnd)
    ensures ValueAfter(s, kind, colon) == Some((valStart, valEnd))
  {
    match kind
    case Number =>
      RunEndIs(s, colon + 1, valStart, IsSpace);
      RunEndIs(s, valStart, valEnd, IsDigit);
    case Quoted =>
      RunEndIs(s, colon + 1, valStart - 1, IsSpace);
      RunEndIs(s, valStart, valEnd, IsNotQuote);
  }

  /** The field pattern, anchored at position `i`. */
  function FieldAt(s: seq<char>, key: seq<char>, kind: FieldKind, i: nat): (r: Option<FieldMatch>)
    ensures r.Some? ==> r.value.start == i && IsFieldMatch(s, key, kind, r.value)
  {
    match KeyAt(s, key, i)
    case None => None
    case Some(colon) =>
      match ValueAfter(s, kind, colon)
      case None => None
      case Some((vs, ve)) => Some(FieldMatch(i, colon, vs, ve))
  }

  /** Every match is found by the matcher anchored at its start. */
  lemma FieldAtComplete(s: seq<char>, key: seq<char>, kind: FieldKind, f: FieldMatch)
    requires IsFieldMatch(s, key, kind, f)
    ensures FieldAt(s, key, kind, f.start) == Some(f)
  {
    KeyAtComplete(s, key, f.start, f.colon);
    ValueAfterComplete(s, kind, f.colon, f.valStart, f.valEnd);
  }

  /** The anchored matcher as a function of the position, for the leftmost search. */
  function FieldMatcherOf(s: seq<char>, key: seq<char>, kind: FieldKind): nat -> Option<FieldMatch> {
    (j: nat) => if j <= |s| then FieldAt(s, key, kind, j) else None
  }

  /** `RegGet`: group 1 of the leftmost match, or "" when the pattern does not occur. */
  function RegGet(s: seq<char>, key: seq<char>, kind: FieldKind): (r: seq<char>)
    ensures kind == Number ==> forall k :: 0 <= k < |r| ==> IsDigit(r[k])
    ensures kind == Quoted ==> forall k :: 0 <= k < |r| ==> IsNotQuote(r[k])
  {
    match Leftmost(FieldMatcherOf(s, key, kind), 0, |s|)
    case Some((_, f)) => s[f.valStart..f.valEnd]
    case None => []
  }

  /** With a match `f` and none starting earlier, `RegGet` returns the value of `f`. */
  lemma RegGetLeftmost(s: seq<char>, key: seq<char>, kind: FieldKind, f: FieldMatch)
    requires IsFieldMatch(s, key, kind, f)
    requires forall g :: IsFieldMatch(s, key, kind, g) ==> f.start <= g.start
    ensures RegGet(s, key, kind) == s[f.valStart..f.valEnd]
  {
    FieldAtComplete(s, key, kind, f);
    assert FieldMatcherOf(s, key, kind)(f.start).Some?;
    var l := Leftmost(FieldMatcherOf(s, key, kind), 0, |s|);
    assert l.Some?;
    assert FieldMatcherOf(s, key, kind)(l.value.0).Some?;
    assert l.value.0 == f.start;
  }

  /** When the pattern occurs nowhere, `RegGet` returns "". */
  lemma RegGetAbsent(s: seq<char>, key: seq<char>, kind: FieldKind)
    requires !HasField(s, key, kind)
    ensures RegGet(s, key, kind) == []
  {
  }

  /** A number field is found exactly when `RegGet` returns a non-empty digit string. */
  lemma RegGetNumberFound(s: seq<char>, key: seq<char>)
    ensures RegGet(s, key, Number) != [] <==> HasField(s, key, Number)
  {
    if HasField(s, key, Number) {
      var f :| IsFieldMatch(s, key, Number, f);
      FieldAtComplete(s, key, Number, f);
      assert FieldMatcherOf(s, key, Number)(f.start).Some?;
      var l := Leftmost(FieldMatcherOf(s, key, Number), 0, |s|);
      assert FieldMatcherOf(s, key, Number)(l.value.0).Some?;
    } else {
      RegGetAbsent(s, key, Number);
    }
  }

  /** A number field as a manifest spells it: the quoted key, whitespace, a colon, whitespace, the digits. */
  function NumberField(key: seq<char>, ws1: seq<char>, ws2: seq<char>, digits: seq<char>): seq<char> {
    KeyToken(key) + ws1 + [':'] + ws2 + digits
  }

  /** A spelled number field at the positions of `f`, followed by a non-digit or the end, is a match of the field pattern. */
  lemma NumberFieldMatch(s: seq<char>, f: FieldMatch, key: seq<char>, ws1: seq<char>, ws2: seq<char>, digits: seq<char>)
    requires Each(ws1, IsSpace) && Each(ws2, IsSpace) && |digits| > 0 && Each(digits, IsDigit)
    requires f.colon == f.start + |key| + 2 + |ws1| && f.valStart == f.colon + 1 + |ws2| && f.valEnd == f.valStart + |digits|
    requires At(s, f.start, NumberField(key, ws1, ws2, digits))
    requires f.valEnd < |s| ==> !IsDigit(s[f.valEnd])
    ensures IsFieldMatch(s, key, Number, f) && s[f.valStart..f.valEnd] == digits
  {
    var kt := KeyToken(key);
    var o := f.start;
    AtSplit(s, o, kt + ws1 + [':'] + ws2, digits);
    AtSplit(s, o, kt + ws1 + [':'], ws2);
    AtSplit(s, o, kt + ws1, [':']);
    AtSplit(s, o, kt, ws1);
    AtSlice(s, o, kt);
    AtChars(s, o + |kt|, ws1, IsSpace);
    assert s[f.colon + 0] == [':'][0];
    AtChars(s, f.colon + 1, ws2, IsSpace);
    AtChars(s, f.valStart, digits, IsDigit);
    AtSlice(s, f.valStart, digits);
  }

  /** Every match starts with a double quote, so none starts in a prefix without one. */
  lemma NoFieldBefore(pre: seq<char>, mid: seq<char>, post: seq<char>, key: seq<char>, kind: FieldKind)
    requires forall k :: 0 <= k < |pre| ==> pre[k] != '"'
    ensures forall g :: IsFieldMatch(pre + mid + post, key, kind, g) ==> |pre| <= g.start
  {
    var s := pre + mid + post;
    forall g | IsFieldMatch(s, key, kind, g) ensures s[g.start] == '"' {
      assert s[g.start] == s[g.start..g.start + |key| + 2][0];
    }
    forall k | 0 <= k < |pre| ensures s[k] != '"' {
      assert s[k] == (pre + mid)[k];
    }
  }

  /**
   * Reading back a number field: after a prefix without double quotes, and
   * followed by anything that does not continue the digits, `RegGet` returns the
   * spelled digits whatever whitespace surrounds the colon.
   */
  lemma NumberFieldSpelled(pre: seq<char>, key: seq<char>, ws1: seq<char>, ws2: seq<char>, n: nat, post: seq<char>)
    requires forall k :: 0 <= k < |pre| ==> pre[k] != '"'
    requires Each(ws1, IsSpace) && Each(ws2, IsSpace)
    requires post == [] || !IsDigit(post[0])
    ensures var s := pre + NumberField(key, ws1, ws2, Decimal(n)) + post;
      RegGet(s, key, Number) == Decimal(n) && Value(RegGet(s, key, Number)) == n
  {
    var x := NumberField(key, ws1, ws2, Decimal(n));
    var s := pre + x + post;
    var colon := |pre| + |key| + 2 + |ws1|;
    var f := FieldMatch(|pre|, colon, colon + 1 + |ws2|, colon + 1 + |ws2| + |Decimal(n)|);
    AtMiddle(pre, x, post);
    if post != [] {
      assert s[f.valEnd] == post[0];
    }
    NumberFieldMatch(s, f, key, ws1, ws2, Decimal(n));
    NoFieldBefore(pre, x, post, key, Number);
    RegGetLeftmost(s, key, Number, f);
  }

  /** `RemoteLatest`: the fields read from the manifest. */
  datatype RemoteLatest = RemoteLatest(
    cycle: nat, version: nat, package: nat,
    latestPackageName: seq<char>, downloadUrl: seq<char>, notes: seq<char>)
  {
    /** The triple the update decision compares. */
    function Triple(): Version {
      Version(cycle, version, package)
    }
  }

  /** `ParseRemoteJson`: reads the six fields; fails, writing nothing, when the cycle or the version is missing. */
  function ParseRemote(json: seq<char>): Option<RemoteLatest> {
    var cyc := RegGet(json, "airac_cycle", Number);
    var ver := RegGet(json, "airac_version", Number);
    var pver := RegGet(json, "package_version", Number);
    var name := RegGet(json, "latest_package_name", Quoted);
    var url := RegGet(json, "download_url", Quoted);
    var nts := RegGet(json, "notes", Quoted);
    if cyc == [] || ver == [] then None
    else Some(RemoteLatest(Value(cyc), Value(ver), if pver == [] then 0 else Value(pver), name, url, nts))
  }

  /** Parsing fails exactly when the `airac_cycle` or the `airac_version` field does not occur. */
  lemma ParseRemoteFailsIff(json: seq<char>)
    ensures ParseRemote(json).None? <==> !HasField(json, "airac_cycle", Number) || !HasField(json, "airac_version", Number)
  {
    RegGetNumberFound(json, "airac_cycle");
    RegGetNumberFound(json, "airac_version");
  }

  /** The optional fields default to 0 and "" when they do not occur. */
  lemma ParseRemoteDefaults(json: seq<char>)
    requires ParseRemote(json).Some?
    ensures !HasField(json, "package_version", Number) ==> ParseRemote(json).value.package == 0
    ensures !HasField(json, "latest_package_name", Quoted) ==> ParseRemote(json).value.latestPackageName == []
    ensures !HasField(json, "download_url", Quoted) ==> ParseRemote(json).value.downloadUrl == []
    ensures !HasField(json, "notes", Quoted) ==> ParseRemote(json).value.notes == []
  {
    RegGetNumberFound(json, "package_version");
    if !HasField(json, "latest_package_name", Quoted) {
      RegGetAbsent(json, "latest_package_name", Quoted);
    }
    if !HasField(json, "download_url", Quoted) {
      RegGetAbsent(json, "download_url", Quoted);
    }
    if !HasField(json, "notes", Quoted) {
      RegGetAbsent(json, "notes", Quoted);
    }
  }

  /** On success each number field holds the value of its leftmost occurrence. */
  lemma ParseRemoteReadsNumber(json: seq<char>, key: seq<char>, f: FieldMatch)
    requires ParseRemote(json).Some?
    requires IsFieldMatch(json, key, Number, f)
    requires forall g :: IsFieldMatch(json, key, Number, g) ==> f.start <= g.start
    ensures var r, n := ParseRemote(json).value, Value(json[f.valStart..f.valEnd]);
      && (key == "airac_cycle" ==> r.cycle == n)
      && (key == "airac_version" ==> r.version == n)
      && (key == "package_version" ==> r.package == n)
  {
    RegGetLeftmost(json, key, Number, f);
  }

  /** On success each quoted field holds the text of its leftmost occurrence. */
  lemma ParseRemoteReadsQuoted(json: seq<char>, key: seq<char>, f: FieldMatch)
    requires ParseRemote(json).Some?
    requires IsFieldMatch(json, key, Quoted, f)
    requires forall g :: IsFieldMatch(json, key, Quoted, g) ==> f.start <= g.start
    ensures var r, t := ParseRemote(json).value, json[f.valStart..f.valEnd];
      && (key == "latest_package_name" ==> r.latestPackageName == t)
      && (key == "download_url" ==> r.downloadUrl == t)
      && (key == "notes" ==> r.notes == t)
  {
    RegGetLeftmost(json, key, Quoted, f);
  }
}
