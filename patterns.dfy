/**
 * Hand-written scanners for the regular expressions the scrapers and the
 * publishing script use. Each `...At` function matches at the start of its
 * argument, following the backtracking order of Python's re module;
 * Search tries every start position from the left, as re.search does.
 */
module Patterns {
  import opened Wrappers
  import opened Text

  /** Length of the longest prefix of s whose characters all satisfy p. */
  function Run(s: string, p: char -> bool): (n: nat)
    ensures n <= |s|
    ensures forall i :: 0 <= i < n ==> p(s[i])
    ensures n < |s| ==> !p(s[n])
  {
    if |s| > 0 && p(s[0]) then 1 + Run(s[1..], p) else 0
  }

  predicate IsDigitOrComma(c: char) { IsDigit(c) || c == ',' }

  predicate IsColonOrSpace(c: char) { c == ':' || IsSpace(c) }

  /** `lit` (written in lower case) starts s, ignoring the case of ASCII letters. */
  predicate StartsWithIgnoreCase(s: string, lit: string) {
    |lit| <= |s| && Lower(s[..|lit|]) == lit
  }

  /** The leftmost start position, from `from` on, where `at` matches. */
  function FirstMatch(s: string, at: string -> Option<string>, from: nat): (r: Option<nat>)
    requires from <= |s| + 1
    ensures r.Some? ==> from <= r.value <= |s| && at(s[r.value..]).Some?
    ensures r.Some? ==> forall j :: from <= j < r.value ==> at(s[j..]).None?
    ensures r.None? ==> forall j :: from <= j <= |s| ==> at(s[j..]).None?
    decreases |s| + 1 - from
  {
    if from > |s| then None
    else if at(s[from..]).Some? then Some(from)
    else FirstMatch(s, at, from + 1)
  }

  /** `at` matches at i, and at no start position before i. */
  predicate LeftmostAt(s: string, at: string -> Option<string>, i: int) {
    && 0 <= i <= |s| && at(s[i..]).Some?
    && forall j :: 0 <= j < i ==> at(s[j..]).None?
  }

  /** re.search: the match found at the leftmost start position where `at` matches. */
  function Search(s: string, at: string -> Option<string>): (r: Option<string>)
    ensures r.Some? <==> exists i :: 0 <= i <= |s| && at(s[i..]).Some?
    ensures r.Some? ==> exists i :: LeftmostAt(s, at, i) && at(s[i..]) == r
  {
    match FirstMatch(s, at, 0)
    case None => None
    case Some(i) =>
      assert LeftmostAt(s, at, i);
      at(s[i..])
  }

  /** s[a..e] is a maximal run of characters satisfying p: it cannot be extended at e. */
  predicate RunEnds(s: string, p: char -> bool, a: int, e: int) {
    && 0 <= a <= e <= |s|
    && (forall k :: a <= k < e ==> p(s[k]))
    && (e == |s| || !p(s[e]))
  }

  /** A maximal run is the one Run measures. */
  lemma RunEndsUnique(s: string, p: char -> bool, a: nat, e: nat)
    requires RunEnds(s, p, a, e)
    ensures e == a + Run(s[a..], p)
  {
  }

  lemma RunIsEnd(s: string, p: char -> bool, a: nat)
    requires a <= |s|
    ensures RunEnds(s, p, a, a + Run(s[a..], p))
  {
    var n := Run(s[a..], p);
    forall k | a <= k < a + n ensures p(s[k]) {
      assert s[a..][k - a] == s[k];
    }
    if a + n < |s| {
      assert s[a..][n] == s[a + n];
    }
  }

  /** s starts with '$' and s[1..e] is the maximal non-empty run of digits and commas. */
  predicate FigureDigitsEnd(s: string, e: int) {
    |s| >= 1 && s[0] == '$' && 2 <= e && RunEnds(s, IsDigitOrComma, 1, e)
  }

  /** The optional cents `\.\d{2}` at position e. */
  predicate CentsAt(s: string, e: int) {
    0 <= e && e + 3 <= |s| && s[e] == '.' && IsDigit(s[e + 1]) && IsDigit(s[e + 2])
  }

  /**
   * Length of `\$[\d,]+(?:\.\d{2})?` at the start of s, or 0 when it does
   * not match: the maximal run of digits and commas, extended by the cents
   * when they follow. Nothing later in either amount pattern can fail, so
   * the greedy run is never given back.
   */
  function FigureLength(s: string): (n: nat)
    ensures n <= |s|
    ensures n > 0 <==> |s| >= 2 && s[0] == '$' && IsDigitOrComma(s[1])
  {
    if |s| == 0 || s[0] != '$' then 0
    else
      var d := Run(s[1..], IsDigitOrComma);
      if d == 0 then 0
      else
        var p := 1 + d;
        if CentsAt(s, p) then p + 3 else p
  }

  /** The figure is the maximal run of digits and commas after '$', with the cents when they follow. */
  lemma FigureExtent(s: string, e: nat)
    requires FigureDigitsEnd(s, e)
    ensures FigureLength(s) == if CentsAt(s, e) then e + 3 else e
  {
    RunEndsUnique(s, IsDigitOrComma, 1, e);
  }

  predicate StartsWithScale(s: string) {
    StartsWithIgnoreCase(s, "million") || StartsWithIgnoreCase(s, "billion")
  }

  /**
   * The FTC amount pattern `\$[\d,]+(?:\.\d{2})?\s*(?:million|billion)?`
   * (case-insensitive) at the start of s. The whitespace run is outside
   * the optional group, so it is part of the match even when no scale word follows.
   */
  function FtcAmountAt(s: string): (r: Option<string>)
    ensures r.Some? <==> |s| >= 2 && s[0] == '$' && IsDigitOrComma(s[1])
    ensures r.Some? ==> r.value <= s && |r.value| >= 2 && r.value[0] == '$'
  {
    var n := FigureLength(s);
    if n == 0 then None
    else
      var w := n + Run(s[n..], IsSpace);
      Some(if StartsWithScale(s[w..]) then s[..w + 7] else s[..w])
  }

  /**
   * How far an FTC amount extends: the figure, then the maximal whitespace
   * run after it, then the scale word when one follows.
   */
  lemma FtcAmountExtent(s: string, w: nat)
    requires FtcAmountAt(s).Some? && RunEnds(s, IsSpace, FigureLength(s), w)
    ensures FtcAmountAt(s).value == if StartsWithScale(s[w..]) then s[..w + 7] else s[..w]
  {
    RunEndsUnique(s, IsSpace, FigureLength(s), w);
  }

  /**
   * The TopClassActions amount pattern
   * `\$[\d,]+(?:\.\d{2})?(?:\s*(?:million|billion))?` at the start of s:
   * whitespace is matched only together with a scale word. A shorter
   * whitespace run cannot help, since a scale word never starts with whitespace.
   */
  function TcaAmountAt(s: string): (r: Option<string>)
    ensures r.Some? <==> |s| >= 2 && s[0] == '$' && IsDigitOrComma(s[1])
    ensures r.Some? ==> r.value <= s && |r.value| >= 2 && r.value[0] == '$'
    ensures r.Some? ==> !IsSpace(r.value[|r.value| - 1])
  {
    var n := FigureLength(s);
    if n == 0 then None
    else
      var w := n + Run(s[n..], IsSpace);
      if StartsWithScale(s[w..]) then
        ScaleEndsInN(s[w..]);
        Some(s[..w + 7])
      else
        Some(s[..n])
  }

  /**
   * How far a TopClassActions amount extends: the figure, and the maximal
   * whitespace run plus the scale word only when a scale word follows that run.
   */
  lemma TcaAmountExtent(s: string, w: nat)
    requires TcaAmountAt(s).Some? && RunEnds(s, IsSpace, FigureLength(s), w)
    ensures TcaAmountAt(s).value == if StartsWithScale(s[w..]) then s[..w + 7] else s[..FigureLength(s)]
  {
    RunEndsUnique(s, IsSpace, FigureLength(s), w);
  }

  /** Both scale words end in an n, which is not whitespace. */
  lemma ScaleEndsInN(s: string)
    requires StartsWithScale(s)
    ensures |s| >= 7 && !IsSpace(s[6])
  {
    assert LowerChar(s[6]) == Lower(s[..7])[6] == 'n';
  }

  /** The two amount patterns part ways on a figure followed by whitespace and no scale word. */
  lemma AmountPatternsDiffer()
    ensures FtcAmountAt("$5 off") == Some("$5 ")
    ensures TcaAmountAt("$5 off") == Some("$5")
  {
    var s := "$5 off";
    assert FigureDigitsEnd(s, 2) && !CentsAt(s, 2);
    FigureExtent(s, 2);
    assert RunEnds(s, IsSpace, 2, 3);
    FtcAmountExtent(s, 3);
    TcaAmountExtent(s, 3);
    assert !StartsWithScale(s[3..]);
    assert s[..3] == "$5 " && s[..2] == "$5";
  }

  /** A figure with cents and a scale word is matched whole by both patterns. */
  lemma AmountPatternsAgreeOnScale()
    ensures FtcAmountAt("$2.50 Million") == Some("$2.50 Million")
    ensures TcaAmountAt("$2.50 Million") == Some("$2.50 Million")
  {
    var s := "$2.50 Million";
    FigureWithCents();
    assert RunEnds(s, IsSpace, 5, 6);
    assert s[6..] == "Million";
    MillionIsScale();
    FtcAmountExtent(s, 6);
    TcaAmountExtent(s, 6);
    assert s[..13] == s;
  }

  /** The cents belong to the figure. */
  lemma FigureWithCents()
    ensures FigureLength("$2.50 Million") == 5
  {
    var s := "$2.50 Million";
    assert FigureDigitsEnd(s, 2) && CentsAt(s, 2);
    FigureExtent(s, 2);
  }

  /** The capitalised scale word of a page is a scale word. */
  lemma MillionIsScale()
    ensures StartsWithScale("Million")
  {
    var m := "Million";
    assert m[..7] == m;
    assert Lower(m) == "million" by {
      assert LowerChar('M') == 'm';
    }
  }

  /** The scale words match whatever the case of their letters (re.I). */
  lemma ScaleIgnoresCase(s: string)
    ensures StartsWithScale(Lower(s)) <==> StartsWithScale(s)
  {
    if |s| >= 7 {
      assert Lower(s)[..7] == Lower(s[..7]);
      assert Lower(Lower(s[..7])) == Lower(s[..7]);
    }
  }

  /** Length of `\d{1,2}/` at the start of s (2 or 3), or 0. */
  function DayOrMonthLength(s: string): (n: nat)
    ensures n == 0 || n == 2 || n == 3
    ensures n > 0 ==> n <= |s| && s[n - 1] == '/' && forall k :: 0 <= k < n - 1 ==> IsDigit(s[k])
  {
    if |s| >= 3 && IsDigit(s[0]) && IsDigit(s[1]) && s[2] == '/' then 3
    else if |s| >= 2 && IsDigit(s[0]) && s[1] == '/' then 2
    else 0
  }

  /** One or two digits, a slash, one or two digits, a slash, four digits. */
  predicate IsDate(d: string) {
    exists i, j :: 1 <= i <= 2 && i + 2 <= j <= i + 3 && |d| == j + 5 && d[i] == '/' && d[j] == '/'
      && (forall k :: 0 <= k < |d| && k != i && k != j ==> IsDigit(d[k]))
  }

  /** `\d{1,2}/\d{1,2}/\d{4}` at the start of s. */
  function DateAt(s: string): (r: Option<string>)
    ensures r.Some? ==> r.value <= s && IsDate(r.value)
  {
    var a := DayOrMonthLength(s);
    if a == 0 then None
    else
      var b := DayOrMonthLength(s[a..]);
      if b == 0 then None
      else
        var y := a + b;
        if y + 4 <= |s| && IsDigit(s[y]) && IsDigit(s[y + 1]) && IsDigit(s[y + 2]) && IsDigit(s[y + 3]) then
          var d := s[..y + 4];
          assert d[a - 1] == '/' && d[y - 1] == '/';
          assert forall k :: 0 <= k < |d| && k != a - 1 && k != y - 1 ==> IsDigit(d[k]) by {
            forall k | 0 <= k < |d| && k != a - 1 && k != y - 1 ensures IsDigit(d[k]) {
              if a <= k < y - 1 { assert d[k] == s[a..][k - a]; }
            }
          }
          Some(d)
        else None
  }

  /** A date prefix of s is the one DateAt finds: the date pattern matches exactly when s starts with a date. */
  lemma DateAtFindsDate(s: string, n: nat)
    requires n <= |s| && IsDate(s[..n])
    ensures DateAt(s) == Some(s[..n])
  {
    var d := s[..n];
    var i, j :| 1 <= i <= 2 && i + 2 <= j <= i + 3 && |d| == j + 5 && d[i] == '/' && d[j] == '/'
      && (forall k :: 0 <= k < |d| && k != i && k != j ==> IsDigit(d[k]));
    assert IsDigit(s[0]) && s[i] == '/';
    assert i == 2 ==> IsDigit(s[1]);
    assert DayOrMonthLength(s) == i + 1;
    var t := s[i + 1..];
    assert t[j - i - 1] == d[j] == '/';
    assert t[0] == d[i + 1] && IsDigit(t[0]);
    if j - i == 3 {
      assert t[1] == d[i + 2] && IsDigit(t[1]);
    }
    assert DayOrMonthLength(t) == j - i;
    assert IsDigit(s[j + 1]) && IsDigit(s[j + 2]) && IsDigit(s[j + 3]) && IsDigit(s[j + 4]);
  }

  /** s starts with one of the deadline keywords, k characters long, in any case. */
  predicate DeadlineKeyword(s: string, k: int) {
    || (k == 8 && StartsWithIgnoreCase(s, "deadline"))
    || (k == 7 && StartsWithIgnoreCase(s, "file by"))
  }

  /**
   * Group 1 of `(?:deadline|file by)[:\s]+(\d{1,2}/\d{1,2}/\d{4})`
   * (case-insensitive) at the start of s: the date right after the keyword
   * and its maximal run of colons and whitespace. A shorter run cannot help,
   * since a date never starts with a colon or whitespace.
   */
  function DeadlineAt(s: string): (r: Option<string>)
    ensures r.Some? ==> IsDate(r.value)
  {
    var k := if StartsWithIgnoreCase(s, "deadline") then 8
             else if StartsWithIgnoreCase(s, "file by") then 7
             else 0;
    if k == 0 then None
    else
      var sep := Run(s[k..], IsColonOrSpace);
      if sep == 0 then None else DateAt(s[k + sep..])
  }

  /** A deadline match always sits after a keyword and a non-empty run of separators. */
  lemma DeadlineNeedsKeyword(s: string)
    requires DeadlineAt(s).Some?
    ensures exists k, e :: DeadlineKeyword(s, k) && k < e && RunEnds(s, IsColonOrSpace, k, e)
  {
    var k := if StartsWithIgnoreCase(s, "deadline") then 8 else 7;
    RunIsEnd(s, IsColonOrSpace, k);
  }

  /** After a keyword and its separators, the deadline pattern yields exactly the date pattern's match. */
  lemma DeadlineAfterKeyword(s: string, k: nat, e: nat)
    requires DeadlineKeyword(s, k) && k < e && RunEnds(s, IsColonOrSpace, k, e)
    ensures DeadlineAt(s) == DateAt(s[e..])
  {
    if k == 7 {
      assert Lower(s[..7])[0] == LowerChar(s[0]) == 'f';
      assert !StartsWithIgnoreCase(s, "deadline") by {
        if |s| >= 8 { assert Lower(s[..8])[0] == LowerChar(s[0]); }
      }
    }
    RunEndsUnique(s, IsColonOrSpace, k, e);
  }

  /** The href pattern `/Recalls/\d{4}/`, found anywhere in the href. */
  predicate HasRecallPath(href: string) {
    exists i :: 0 <= i <= |href| - 14 && "/Recalls/" <= href[i..]
      && IsDigit(href[i + 9]) && IsDigit(href[i + 10]) && IsDigit(href[i + 11]) && IsDigit(href[i + 12])
      && href[i + 13] == '/'
  }

  /** The recall path is searched for anywhere in the href: text around it does not hide it. */
  lemma RecallPathAnywhere(pre: string, href: string, post: string)
    requires HasRecallPath(href)
    ensures HasRecallPath(pre + href + post)
  {
    var i :| 0 <= i <= |href| - 14 && "/Recalls/" <= href[i..]
      && IsDigit(href[i + 9]) && IsDigit(href[i + 10]) && IsDigit(href[i + 11]) && IsDigit(href[i + 12])
      && href[i + 13] == '/';
    var u := pre + href + post;
    var p := |pre| + i;
    assert u[p..p + 14] == href[i..i + 14];
    assert "/Recalls/" <= u[p..];
  }

  /** The line is d digits, a dot, w whitespace characters, then at least one more character. */
  predicate StepForm(line: string, d: nat, w: nat) {
    && 1 <= d && 1 <= w && d + 1 + w < |line|
    && (forall k :: 0 <= k < d ==> IsDigit(line[k]))
    && line[d] == '.'
    && (forall k :: d + 1 <= k < d + 1 + w ==> IsSpace(line[k]))
  }

  /**
   * Group 1 of `^\d+\.\s+(.+)$` on a line without line breaks: it matches
   * exactly the lines of StepForm, and the group is what follows the
   * whitespace (when the line ends in whitespace, `\s+` gives one
   * character back to `.+`).
   */
  function StepTextAt(line: string): (r: Option<string>)
    requires '\n' !in line
    ensures r.Some? ==> exists d, w :: StepForm(line, d, w) && r.value == line[d + 1 + w..]
    ensures (exists d, w :: StepForm(line, d, w)) ==> r.Some?
  {
    StepFormNeeds(line);
    var d := Run(line, IsDigit);
    if d == 0 || d >= |line| || line[d] != '.' then None
    else
      var rest := line[d + 1..];
      var w := Run(rest, IsSpace);
      assert forall k :: d + 1 <= k < d + 1 + w ==> line[k] == rest[k - d - 1];
      if w == 0 then None
      else if w < |rest| then
        assert StepForm(line, d, w);
        Some(rest[w..])
      else if w >= 2 then
        assert StepForm(line, d, w - 1);
        Some(rest[w - 1..])
      else None
  }

  /** A line of StepForm passes every test StepTextAt makes on the digit and whitespace runs. */
  lemma StepFormNeeds(line: string)
    ensures (exists d, w :: StepForm(line, d, w)) ==>
      var d := Run(line, IsDigit);
      && 0 < d < |line| && line[d] == '.'
      && var w := Run(line[d + 1..], IsSpace);
      && 1 <= w && (w < |line[d + 1..]| || w >= 2)
  {
    if exists d, w :: StepForm(line, d, w) {
      var d: nat, w: nat :| StepForm(line, d, w);
      StepFormDigits(line, d, w);
      var rest := line[d + 1..];
      assert IsSpace(rest[0]);
      if w < |rest| {
      } else {
        assert w >= 1 && d + 1 + w < |line|;
      }
    }
  }

  /** In a line of StepForm the digit run is exactly the first d characters. */
  lemma StepFormDigits(line: string, d: nat, w: nat)
    requires StepForm(line, d, w)
    ensures Run(line, IsDigit) == d
  {
  }
}
