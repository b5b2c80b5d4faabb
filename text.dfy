/**
 * Character classes and scanning helpers shared by the label matcher and the
 * manifest field search, and the plugin's `Trim` helper.
 *
 * Characters stand for the bytes of a `std::string`; the regular expressions of
 * the plugin run in the classic "C" locale, so the classes below are ASCII only.
 */
module Text {
  import opened Wrappers

  /** `\d` and `[0-9]`. */
  predicate IsDigit(c: char) {
    '0' <= c <= '9'
  }

  /** `[A-Z]`. */
  predicate IsUpper(c: char) {
    'A' <= c <= 'Z'
  }

  /** `\s`: the six characters `isspace` accepts in the classic locale. */
  predicate IsSpace(c: char) {
    c == ' ' || c == '\t' || c == '\n' || c == '\r' || c == '\U{0B}' || c == '\U{0C}'
  }

  /** `[^"]`. */
  predicate IsNotQuote(c: char) {
    c != '"'
  }

  /** The four characters `Trim` strips: `" \t\r\n"`. */
  predicate IsTrimSpace(c: char) {
    c == ' ' || c == '\t' || c == '\r' || c == '\n'
  }

  /** Every character of `s[lo..hi]` belongs to class `p`. */
  predicate All(s: seq<char>, lo: nat, hi: nat, p: char -> bool)
    requires lo <= hi <= |s|
  {
    forall k :: lo <= k < hi ==> p(s[k])
  }

  /**
   * The end of the longest run of class-`p` characters that starts at `i`:
   * what a greedy `p*` consumes from position `i`.
   */
  function RunEnd(s: seq<char>, i: nat, p: char -> bool): (j: nat)
    requires i <= |s|
    ensures i <= j <= |s|
    ensures All(s, i, j, p)
    ensures j < |s| ==> !p(s[j])
    decreases |s| - i
  {
    if i < |s| && p(s[i]) then RunEnd(s, i + 1, p) else i
  }

  /** A run of class-`p` characters that the next character cannot extend is the one `RunEnd` finds. */
  lemma RunEndIs(s: seq<char>, i: nat, j: nat, p: char -> bool)
    requires i <= j <= |s|
    requires All(s, i, j, p)
    requires j < |s| ==> !p(s[j])
    ensures RunEnd(s, i, p) == j
  {
  }

  /**
   * The start of the longest run of class-`p` characters that ends just before `j`
   * (scanning backwards, as `find_last_not_of` does).
   */
  function RunStart(s: seq<char>, j: nat, p: char -> bool): (i: nat)
    requires j <= |s|
    ensures i <= j
    ensures All(s, i, j, p)
    ensures 0 < i ==> !p(s[i - 1])
  {
    if 0 < j && p(s[j - 1]) then RunStart(s, j - 1, p) else j
  }

  /**
   * What `std::regex_search` reports for a pattern whose anchored matcher is
   * `at`: the leftmost position in `i..n` where `at` succeeds, with its result.
   */
  function Leftmost<T>(at: nat -> Option<T>, i: nat, n: nat): (r: Option<(nat, T)>)
    requires i <= n
    ensures r.Some? ==> i <= r.value.0 <= n && at(r.value.0) == Some(r.value.1)
    ensures r.Some? ==> forall j :: i <= j < r.value.0 ==> at(j).None?
    ensures r.None? ==> forall j :: i <= j <= n ==> at(j).None?
    decreases n - i
  {
    match at(i)
    case Some(x) => Some((i, x))
    case None => if i == n then None else Leftmost(at, i + 1, n)
  }

  /** The numeric value of one decimal digit. */
  function DigitValue(c: char): (d: nat)
    requires IsDigit(c)
    ensures d < 10
  {
    (c as int) - ('0' as int)
  }

  /** The digit character of a value below ten. */
  function DigitChar(d: nat): (c: char)
    requires d < 10
    ensures IsDigit(c) && DigitValue(c) == d
  {
    (('0' as int) + d) as char
  }

  /** The value `std::stoi` gives a string of decimal digits (leading zeros allowed). */
  function Value(ds: seq<char>): nat
    requires forall k :: 0 <= k < |ds| ==> IsDigit(ds[k])
  {
    if ds == [] then 0 else Value(ds[..|ds| - 1]) * 10 + DigitValue(ds[|ds| - 1])
  }

  /** A leading zero does not change the value, as `std::stoi` reads `"007"` as 7. */
  lemma {:induction false} ValueLeadingZero(ds: seq<char>)
    requires forall k :: 0 <= k < |ds| ==> IsDigit(ds[k])
    ensures Value(['0'] + ds) == Value(ds)
    decreases |ds|
  {
    if ds != [] {
      var zs := ['0'] + ds;
      assert zs[..|zs| - 1] == ['0'] + ds[..|ds| - 1];
      assert zs[|zs| - 1] == ds[|ds| - 1];
      ValueLeadingZero(ds[..|ds| - 1]);
    } else {
      assert (['0'] + ds)[..0] == [];
    }
  }

  /** The canonical decimal spelling of `n`, which `Value` reads back. */
  function Decimal(n: nat): (ds: seq<char>)
    ensures |ds| >= 1
    ensures forall k :: 0 <= k < |ds| ==> IsDigit(ds[k])
    ensures Value(ds) == n
    ensures n >= 10 ==> ds[0] != '0'
  {
    if n < 10 then [DigitChar(n)]
    else
      var front := Decimal(n / 10);
      var ds := front + [DigitChar(n % 10)];
      assert ds[..|ds| - 1] == front;
      ds
  }

  /** All of `s` is made of the characters `Trim` strips: `All` over the whole string. */
  predicate AllTrimSpace(s: seq<char>) {
    All(s, 0, |s|, IsTrimSpace)
  }

  /**
   * `Trim`: drop leading and trailing `" \t\r\n"`; a string made only of those
   * characters (or empty) gives "".
   */
  function Trim(s: seq<char>): (r: seq<char>)
    ensures |r| <= |s|
    ensures r == [] <==> AllTrimSpace(s)
    ensures r != [] ==> !IsTrimSpace(r[0]) && !IsTrimSpace(r[|r| - 1])
    ensures exists b :: 0 <= b <= |s| - |r| && r == s[b..b + |r|] && AllTrimSpace(s[..b]) && AllTrimSpace(s[b + |r|..])
  {
    var b := RunEnd(s, 0, IsTrimSpace);
    if b == |s| then
      TrimAllSpace(s);
      []
    else
      var e := RunStart(s, |s|, IsTrimSpace);
      TrimCore(s, b, e);
      s[b..e]
  }

  /** When the forward scan reaches the end, `s` is all whitespace and "" is what remains. */
  lemma TrimAllSpace(s: seq<char>)
    requires RunEnd(s, 0, IsTrimSpace) == |s|
    ensures AllTrimSpace(s)
    ensures exists b :: 0 <= b <= |s| && [] == s[b..b] && AllTrimSpace(s[..b]) && AllTrimSpace(s[b..])
  {
    assert AllTrimSpace(s[..0]) && AllTrimSpace(s[0..]);
  }

  /** When the forward scan stops at `b`, the backward scan stops at some `e > b`, and `s[b..e]` is the core. */
  lemma TrimCore(s: seq<char>, b: nat, e: nat)
    requires b == RunEnd(s, 0, IsTrimSpace) < |s|
    requires e == RunStart(s, |s|, IsTrimSpace)
    ensures b < e && !AllTrimSpace(s)
    ensures !IsTrimSpace(s[b]) && !IsTrimSpace(s[e - 1])
    ensures AllTrimSpace(s[..b]) && AllTrimSpace(s[e..])
  {
    assert !IsTrimSpace(s[b]);
  }

  /**
   * `Trim` is characterised by its result alone: whatever whitespace-only prefix
   * and suffix surround a core that neither starts nor ends with whitespace,
   * `Trim` returns that core.
   */
  lemma TrimUnique(pre: seq<char>, mid: seq<char>, post: seq<char>)
    requires AllTrimSpace(pre) && AllTrimSpace(post)
    requires mid == [] || (!IsTrimSpace(mid[0]) && !IsTrimSpace(mid[|mid| - 1]))
    ensures Trim(pre + mid + post) == mid
  {
    var s := pre + mid + post;
    assert s[..|pre|] == pre;
    assert s[|pre| + |mid|..] == post;
    AllTrimSpaceSlice(s, 0, |pre|);
    AllTrimSpaceSlice(s, |pre| + |mid|, |s|);
    if mid == [] {
      assert All(s, 0, |s|, IsTrimSpace);
      RunEndIs(s, 0, |s|, IsTrimSpace);
    } else {
      RunEndIs(s, 0, |pre|, IsTrimSpace);
      assert s[|pre|] == mid[0];
      assert s[|pre| + |mid| - 1] == mid[|mid| - 1];
      RunStartIs(s, |pre| + |mid|, |s|, IsTrimSpace);
      assert s[|pre|..|pre| + |mid|] == mid;
    }
  }

  /** A whitespace-only slice is a whitespace-only range of the whole. */
  lemma AllTrimSpaceSlice(s: seq<char>, lo: nat, hi: nat)
    requires lo <= hi <= |s|
    requires AllTrimSpace(s[lo..hi])
    ensures All(s, lo, hi, IsTrimSpace)
  {
    forall k | lo <= k < hi ensures IsTrimSpace(s[k]) {
      assert s[k] == s[lo..hi][k - lo];
    }
  }

  /** A backward run of class-`p` characters that cannot be extended leftwards is the one `RunStart` finds. */
  lemma RunStartIs(s: seq<char>, i: nat, j: nat, p: char -> bool)
    requires i <= j <= |s|
    requires All(s, i, j, p)
    requires 0 < i ==> !p(s[i - 1])
    ensures RunStart(s, j, p) == i
  {
  }

  /** Trimming twice is trimming once. */
  lemma TrimIdempotent(s: seq<char>)
    ensures Trim(Trim(s)) == Trim(s)
  {
    var t := Trim(s);
    assert t == [] + t + [];
    TrimUnique([], t, []);
  }

  /** Every character of `x` is in class `p`: `All` over the whole of `x`. */
  ghost predicate Each(x: seq<char>, p: char -> bool) {
    All(x, 0, |x|, p)
  }

  /** `x` occurs in `s` at offset `o`. */
  ghost predicate At(s: seq<char>, o: nat, x: seq<char>) {
    o + |x| <= |s| && forall k :: 0 <= k < |x| ==> s[o + k] == x[k]
  }

  /** An occurrence of `x + y` is an occurrence of `x` followed by one of `y`. */
  lemma AtSplit(s: seq<char>, o: nat, x: seq<char>, y: seq<char>)
    requires At(s, o, x + y)
    ensures At(s, o, x) && At(s, o + |x|, y)
  {
    forall k | 0 <= k < |x| ensures s[o + k] == x[k] {
      assert (x + y)[k] == x[k];
    }
    forall k | 0 <= k < |y| ensures s[o + |x| + k] == y[k] {
      assert (x + y)[|x| + k] == y[k];
    }
  }

  /** The characters of an occurrence are those of `x`. */
  lemma AtChars(s: seq<char>, o: nat, x: seq<char>, p: char -> bool)
    requires At(s, o, x)
    requires forall k :: 0 <= k < |x| ==> p(x[k])
    ensures All(s, o, o + |x|, p)
  {
    forall k | o <= k < o + |x| ensures p(s[k]) {
      assert s[o + (k - o)] == x[k - o];
    }
  }

  /** An occurrence is the slice it occupies. */
  lemma AtSlice(s: seq<char>, o: nat, x: seq<char>)
    requires At(s, o, x)
    ensures s[o..o + |x|] == x
  {
  }

  /** `x` occurs in `pre + x + post` right after `pre`. */
  lemma AtMiddle(pre: seq<char>, x: seq<char>, post: seq<char>)
    ensures At(pre + x + post, |pre|, x)
  {
    var s := pre + x + post;
    forall k | 0 <= k < |x| ensures s[|pre| + k] == x[k] {
      assert s[|pre| + k] == (pre + x)[|pre| + k];
    }
  }
}
