/**
 * The article publisher's parsing and bookkeeping: the issue form is split
 * into `###` sections, its list fields are parsed line by line, the output
 * path follows the mode, and a published article gets one card in the
 * articles index.
 */
module Publish {
  import opened Wrappers
  import opened Text
  import opened Patterns

  // ---------------------------------------------------------------- parse_issue

  /** A section break `\n###` followed by whitespace starts at position j of s. */
  predicate BreakAt(s: string, j: int) {
    && 0 <= j && j + 5 <= |s|
    && s[j] == '\n' && s[j + 1] == '#' && s[j + 2] == '#' && s[j + 3] == '#' && IsSpace(s[j + 4])
  }

  /** Length of a section break `\n###\s+` at the start of s, or 0. */
  function BreakLen(s: string): (n: nat)
    ensures n <= |s|
    ensures n > 0 <==> BreakAt(s, 0)
    ensures n > 0 ==> n >= 5
  {
    if |s| >= 4 && s[0] == '\n' && s[1] == '#' && s[2] == '#' && s[3] == '#' then
      var w := Run(s[4..], IsSpace);
      if w == 0 then 0 else 4 + w
    else 0
  }

  /**
   * re.split on `\n###\s+` from position i, the current piece having begun
   * at `start`: matches are found from the left and do not overlap.
   */
  function SplitFrom(s: string, start: nat, i: nat): (r: seq<string>)
    requires start <= i <= |s|
    ensures |r| >= 1
    decreases |s| - i
  {
    if i == |s| then [s[start..]]
    else
      var n := BreakLen(s[i..]);
      if n > 0 then [s[start..i]] + SplitFrom(s, i + n, i + n)
      else SplitFrom(s, start, i + 1)
  }

  lemma BreakAtShift(s: string, i: nat)
    requires i < |s|
    ensures BreakAt(s, i) <==> BreakAt(s[i..], 0)
  {
  }

  /** No piece holds a break: the search resumes where each break ends. */
  lemma {:induction false} SplitFromNoBreak(s: string, start: nat, i: nat)
    requires start <= i <= |s|
    requires forall j :: start <= j < i ==> !BreakAt(s, j)
    ensures forall k, j :: 0 <= k < |SplitFrom(s, start, i)| ==> !BreakAt(SplitFrom(s, start, i)[k], j)
    decreases |s| - i
  {
    if i == |s| {
      NoBreakInPiece(s, start, i);
      assert s[start..] == s[start..i];
    } else {
      var n := BreakLen(s[i..]);
      if n > 0 {
        NoBreakInPiece(s, start, i);
        SplitFromNoBreak(s, i + n, i + n);
        PiecesAtBreak(s, start, i);
      } else {
        BreakAtShift(s, i);
        SplitFromNoBreak(s, start, i + 1);
      }
    }
  }

  lemma NoBreakInPiece(s: string, start: nat, i: nat)
    requires start <= i <= |s|
    requires forall j :: start <= j < i ==> !BreakAt(s, j)
    ensures forall j :: !BreakAt(s[start..i], j)
  {
    forall j | BreakAt(s[start..i], j) ensures false {
      assert BreakAt(s, start + j);
    }
  }

  /** The sections of an issue body: re.split(r'\n###\s+', '\n' + body). No section holds a break. */
  function Sections(body: string): (r: seq<string>)
    ensures |r| >= 1
    ensures forall k, j :: 0 <= k < |r| ==> !BreakAt(r[k], j)
  {
    SplitFromNoBreak("\n" + body, 0, 0);
    SplitFrom("\n" + body, 0, 0)
  }

  /** A break as re.split consumes it: "\n###" and then whitespace only, at least one character of it. */
  predicate IsBreak(t: string) {
    && |t| >= 5 && t[..4] == "\n###"
    && forall j :: 4 <= j < |t| ==> IsSpace(t[j])
  }

  /** The breaks SplitFrom splits at, from position i on, in order. */
  function BreaksFrom(s: string, i: nat): (r: seq<string>)
    requires i <= |s|
    ensures forall k :: 0 <= k < |r| ==> IsBreak(r[k])
    decreases |s| - i
  {
    if i == |s| then []
    else
      var n := BreakLen(s[i..]);
      if n > 0 then
        assert IsBreak(s[i..i + n]) by {
          var t, u := s[i..i + n], s[i..][4..];
          assert forall j :: 4 <= j < n ==> t[j] == u[j - 4];
        }
        [s[i..i + n]] + BreaksFrom(s, i + n)
      else BreaksFrom(s, i + 1)
  }

  /** The separators between the sections of an issue body. */
  function SectionBreaks(body: string): seq<string> {
    BreaksFrom("\n" + body, 0)
  }

  /** pieces[0] + seps[0] + pieces[1] + ... + pieces[|seps|]: a split undone. */
  function Interleave(pieces: seq<string>, seps: seq<string>): string
    requires |pieces| == |seps| + 1
  {
    if seps == [] then pieces[0] else pieces[0] + seps[0] + Interleave(pieces[1..], seps[1..])
  }

  /** The first piece SplitFrom gives is a prefix of what is left from `start`. */
  lemma {:induction false} SplitFromFirst(s: string, start: nat, i: nat)
    requires start <= i <= |s|
    ensures SplitFrom(s, start, i)[0] <= s[start..]
    decreases |s| - i
  {
    if i < |s| && BreakLen(s[i..]) == 0 {
      SplitFromFirst(s, start, i + 1);
    }
  }

  /**
   * Putting the breaks back between the pieces gives the text back.
   */
  lemma {:induction false} SplitFromRejoins(s: string, start: nat, i: nat)
    requires start <= i <= |s|
    ensures |SplitFrom(s, start, i)| == |BreaksFrom(s, i)| + 1
    ensures Interleave(SplitFrom(s, start, i), BreaksFrom(s, i)) == s[start..]
    decreases |s| - i
  {
    if i < |s| {
      var n := BreakLen(s[i..]);
      if n > 0 {
        SplitFromRejoins(s, i + n, i + n);
        RejoinAtBreak(s, start, i);
      } else {
        SplitFromRejoins(s, start, i + 1);
      }
    }
  }

  /** One step of SplitFromRejoins: a break at i closes the piece begun at `start`. */
  lemma RejoinAtBreak(s: string, start: nat, i: nat)
    requires start <= i < |s| && BreakLen(s[i..]) > 0
    requires var n := BreakLen(s[i..]);
      && |SplitFrom(s, i + n, i + n)| == |BreaksFrom(s, i + n)| + 1
      && Interleave(SplitFrom(s, i + n, i + n), BreaksFrom(s, i + n)) == s[i + n..]
    ensures |SplitFrom(s, start, i)| == |BreaksFrom(s, i)| + 1
    ensures Interleave(SplitFrom(s, start, i), BreaksFrom(s, i)) == s[start..]
  {
    var n := BreakLen(s[i..]);
    var pieces := SplitFrom(s, i + n, i + n);
    var seps := BreaksFrom(s, i + n);
    PiecesAtBreak(s, start, i);
    BreaksAtBreak(s, i);
    InterleaveCons(s[start..i], pieces, s[i..i + n], seps);
    assert s[start..] == s[start..i] + s[i..i + n] + s[i + n..];
  }

  lemma PiecesAtBreak(s: string, start: nat, i: nat)
    requires start <= i < |s| && BreakLen(s[i..]) > 0
    ensures SplitFrom(s, start, i) == [s[start..i]] + SplitFrom(s, i + BreakLen(s[i..]), i + BreakLen(s[i..]))
  {
  }

  lemma BreaksAtBreak(s: string, i: nat)
    requires i < |s| && BreakLen(s[i..]) > 0
    ensures BreaksFrom(s, i) == [s[i..i + BreakLen(s[i..])]] + BreaksFrom(s, i + BreakLen(s[i..]))
  {
  }

  lemma InterleaveCons(a: string, pieces: seq<string>, b: string, seps: seq<string>)
    requires |pieces| == |seps| + 1
    ensures Interleave([a] + pieces, [b] + seps) == a + b + Interleave(pieces, seps)
  {
    assert ([a] + pieces)[1..] == pieces;
    assert ([b] + seps)[1..] == seps;
  }

  /** Each break took all the whitespace after "###": no later piece starts with whitespace. */
  lemma {:induction false} SplitFromGreedy(s: string, start: nat, i: nat)
    requires start <= i <= |s|
    ensures forall k :: 1 <= k < |SplitFrom(s, start, i)| ==>
      SplitFrom(s, start, i)[k] == [] || !IsSpace(SplitFrom(s, start, i)[k][0])
    decreases |s| - i
  {
    if i < |s| {
      var n := BreakLen(s[i..]);
      if n > 0 {
        SplitFromGreedy(s, i + n, i + n);
        SplitFromFirst(s, i + n, i + n);
        var pieces := SplitFrom(s, i + n, i + n);
        assert SplitFrom(s, start, i) == [s[start..i]] + pieces;
        assert i + n < |s| ==> !IsSpace(s[i + n]) by {
          assert s[i..][4..] == s[i + 4..];
        }
      } else {
        SplitFromGreedy(s, start, i + 1);
      }
    }
  }

  /** Joining the sections with the breaks between them gives back "\n" + body. */
  lemma SectionsRejoin(body: string)
    ensures |Sections(body)| == |SectionBreaks(body)| + 1
    ensures Interleave(Sections(body), SectionBreaks(body)) == "\n" + body
    ensures forall k :: 1 <= k < |Sections(body)| ==> Sections(body)[k] == [] || !IsSpace(Sections(body)[k][0])
  {
    SplitFromRejoins("\n" + body, 0, 0);
    SplitFromGreedy("\n" + body, 0, 0);
  }

  /**
   * What a section contributes: None for a blank section, otherwise its
   * lower-cased, stripped first line and the stripped rest.
   */
  function Entry(section: string): (r: Option<(string, string)>)
    ensures r.None? <==> Strip(section) == ""
  {
    var t := Strip(section);
    if t == "" then None
    else
      var lines := Split(t, '\n');
      Some((Lower(Strip(lines[0])), Strip(Join(lines[1..], "\n"))))
  }

  /**
   * The label is the first line of the stripped section, stripped and
   * lower-cased; the value is everything after that line, stripped.
   */
  lemma EntryFirstLine(section: string)
    requires Strip(section) != ""
    ensures var t := Strip(section);
      (match IndexOf(t, '\n')
       case None => Entry(section) == Some((Lower(t), ""))
       case Some(i) => Entry(section) == Some((Lower(Strip(t[..i])), Strip(t[i + 1..]))))
  {
    var t := Strip(section);
    var lines := Split(t, '\n');
    match IndexOf(t, '\n')
    case None =>
      StripIdempotent(section);
      assert Strip(Join(lines[1..], "\n")) == "";
    case Some(i) =>
      assert lines == [t[..i]] + Split(t[i + 1..], '\n');
      assert lines[1..] == Split(t[i + 1..], '\n');
      JoinSplit(t[i + 1..], '\n');
  }

  /** A label holds no line break, no upper-case ASCII letter and no whitespace at either end. */
  lemma EntryLabelShape(section: string)
    requires Entry(section).Some?
    ensures var key := Entry(section).value.0;
      && '\n' !in key
      && (forall c :: c in key ==> !('A' <= c <= 'Z'))
      && (key != [] ==> !IsSpace(key[0]) && !IsSpace(key[|key| - 1]))
  {
    var t := Strip(section);
    var first := Split(t, '\n')[0];
    var key := Lower(Strip(first));
    assert '\n' !in first;
    StripKeepsOut(first, '\n');
    forall c | c in key ensures !('A' <= c <= 'Z') && c != '\n' {
      var k :| 0 <= k < |key| && key[k] == c;
    }
  }

  /** The fields of a run of sections; a later entry overrides an earlier one with the same label. */
  function FieldsOf(sections: seq<string>, entry: string -> Option<(string, string)>): map<string, string> {
    if sections == [] then map[]
    else
      var n := |sections| - 1;
      var fields := FieldsOf(sections[..n], entry);
      match entry(sections[n])
      case None => fields
      case Some(e) => fields[e.0 := e.1]
  }

  /** Section i has an entry and no later section's entry has its label. */
  predicate LastWithLabel(sections: seq<string>, entry: string -> Option<(string, string)>, i: int) {
    && 0 <= i < |sections| && entry(sections[i]).Some?
    && forall j :: i < j < |sections| && entry(sections[j]).Some? ==> entry(sections[j]).value.0 != entry(sections[i]).value.0
  }

  /** The labels present are exactly those of the sections with an entry. */
  lemma {:induction false} FieldsKeys(sections: seq<string>, entry: string -> Option<(string, string)>)
    ensures forall k :: k in FieldsOf(sections, entry) <==>
      exists i :: 0 <= i < |sections| && entry(sections[i]).Some? && entry(sections[i]).value.0 == k
  {
    if sections != [] {
      var n := |sections| - 1;
      var init := sections[..n];
      FieldsKeys(init, entry);
      forall k | k in FieldsOf(sections, entry)
        ensures exists i :: 0 <= i < |sections| && entry(sections[i]).Some? && entry(sections[i]).value.0 == k
      {
        if entry(sections[n]).Some? && k == entry(sections[n]).value.0 {
          assert entry(sections[n]).value.0 == k;
        } else {
          assert k in FieldsOf(init, entry);
          var i :| 0 <= i < |init| && entry(init[i]).Some? && entry(init[i]).value.0 == k;
          assert sections[i] == init[i];
        }
      }
      forall k | exists i :: 0 <= i < |sections| && entry(sections[i]).Some? && entry(sections[i]).value.0 == k
        ensures k in FieldsOf(sections, entry)
      {
        var i :| 0 <= i < |sections| && entry(sections[i]).Some? && entry(sections[i]).value.0 == k;
        if i < n {
          assert init[i] == sections[i];
          assert k in FieldsOf(init, entry);
        }
      }
    }
  }

  /** Each label holds the value of the last section carrying it: a later duplicate overrides. */
  lemma {:induction false} FieldsLastWins(sections: seq<string>, entry: string -> Option<(string, string)>, i: int)
    requires LastWithLabel(sections, entry, i)
    ensures entry(sections[i]).value.0 in FieldsOf(sections, entry)
    ensures FieldsOf(sections, entry)[entry(sections[i]).value.0] == entry(sections[i]).value.1
  {
    var n := |sections| - 1;
    var init := sections[..n];
    if i < n {
      assert init[i] == sections[i];
      assert LastWithLabel(init, entry, i) by {
        forall j | i < j < |init| && entry(init[j]).Some?
          ensures entry(init[j]).value.0 != entry(init[i]).value.0
        {
          assert init[j] == sections[j];
        }
      }
      FieldsLastWins(init, entry, i);
    }
  }

  /** parse_issue: a map from each section's label to its value. */
  method ParseIssue(body: string) returns (fields: map<string, string>)
    ensures fields == FieldsOf(Sections(body), Entry)
  {
    var sections := Sections(body);
    fields := map[];
    for i := 0 to |sections|
      invariant fields == FieldsOf(sections[..i], Entry)
    {
      assert sections[..i + 1][..i] == sections[..i];
      var section := sections[i];
      if Strip(section) == "" {
        continue;
      }
      var lines := Split(Strip(section), '\n');
      var key := Lower(Strip(lines[0]));
      var value := Strip(Join(lines[1..], "\n"));
      fields := fields[key := value];
    }
    assert sections[..|sections|] == sections;
  }

  // ---------------------------------------------------------------- get_field

  /** A form answer that counts as given. */
  predicate Given(answer: string) { answer != "" && answer != "_No response_" }

  /** The stripped value under a label, looked up in lower case; '' when absent. */
  function Lookup(fields: map<string, string>, name: string): string {
    var key := Lower(name);
    Strip(if key in fields then fields[key] else "")
  }

  /** The first given answer, trying the labels in order; '' when none is given. */
  function FirstAnswer(labels: seq<string>, answer: string -> string): (r: string)
    ensures r == "" <==> forall i :: 0 <= i < |labels| ==> !Given(answer(labels[i]))
  {
    if labels == [] then ""
    else if Given(answer(labels[0])) then answer(labels[0])
    else
      var r := FirstAnswer(labels[1..], answer);
      assert forall i :: 1 <= i < |labels| ==> labels[i] == labels[1..][i - 1];
      r
  }

  /** get_field */
  function GetField(fields: map<string, string>, labels: seq<string>): (r: string)
    ensures r == "" <==> forall i :: 0 <= i < |labels| ==> !Given(Lookup(fields, labels[i]))
  {
    FirstAnswer(labels, name => Lookup(fields, name))
  }

  /** The answer under labels[i] is the first one given. */
  predicate FirstGiven(labels: seq<string>, answer: string -> string, i: int) {
    && 0 <= i < |labels| && Given(answer(labels[i]))
    && forall j :: 0 <= j < i ==> !Given(answer(labels[j]))
  }

  /** A non-empty result is the answer of the first label whose answer was given. */
  lemma {:induction false} FirstAnswerIsFirstGiven(labels: seq<string>, answer: string -> string)
    requires FirstAnswer(labels, answer) != ""
    ensures exists i :: FirstGiven(labels, answer, i) && FirstAnswer(labels, answer) == answer(labels[i])
  {
    if Given(answer(labels[0])) {
      assert FirstGiven(labels, answer, 0);
    } else {
      var rest := labels[1..];
      FirstAnswerIsFirstGiven(rest, answer);
      var i :| FirstGiven(rest, answer, i) && FirstAnswer(rest, answer) == answer(rest[i]);
      assert labels[i + 1] == rest[i];
      assert forall j :: 1 <= j < i + 1 ==> labels[j] == rest[j - 1];
      assert FirstGiven(labels, answer, i + 1);
    }
  }

  // ---------------------------------------------------------------- parse_eligibility

  /** One bullet line: stripped, leading '-' then '*' removed, stripped again. */
  function BulletItem(line: string): (r: string)
    ensures r != "" ==> !IsSpace(r[0]) && !IsSpace(r[|r| - 1])
  {
    Strip(LStripChar(LStripChar(Strip(line), '-'), '*'))
  }

  /** The non-empty results of `item` over the lines, in line order. */
  function NonEmpty(lines: seq<string>, item: string -> string): (r: seq<string>)
    ensures |r| <= |lines|
    ensures forall k :: 0 <= k < |r| ==> r[k] != ""
  {
    if lines == [] then []
    else
      var n := |lines| - 1;
      NonEmpty(lines[..n], item) + (if item(lines[n]) != "" then [item(lines[n])] else [])
  }

  /** `item` applied to every line. */
  function MapLines(lines: seq<string>, item: string -> string): (r: seq<string>)
    ensures |r| == |lines|
    ensures forall k :: 0 <= k < |lines| ==> r[k] == item(lines[k])
  {
    if lines == [] then [] else MapLines(lines[..|lines| - 1], item) + [item(lines[|lines| - 1])]
  }

  /** Dropping the last element of the larger sequence keeps a subsequence when it was not needed. */
  lemma SubsequenceExtend<T>(a: seq<T>, b: seq<T>)
    requires b != [] && IsSubsequence(a, b[..|b| - 1])
    ensures IsSubsequence(a, b)
  {
  }

  /** Each kept item comes from its own line, in line order. */
  lemma {:induction false} NonEmptyInOrder(lines: seq<string>, item: string -> string)
    ensures IsSubsequence(NonEmpty(lines, item), MapLines(lines, item))
  {
    if lines != [] {
      var n := |lines| - 1;
      NonEmptyInOrder(lines[..n], item);
      var kept := NonEmpty(lines, item);
      var all := MapLines(lines, item);
      assert all[..n] == MapLines(lines[..n], item);
      if item(lines[n]) != "" {
        assert kept[..|kept| - 1] == NonEmpty(lines[..n], item);
      } else {
        assert kept == NonEmpty(lines[..n], item);
        SubsequenceExtend(kept, all);
      }
    }
  }

  /** The lines whose item is not empty, by position. */
  function ItemLines(lines: seq<string>, item: string -> string): set<nat> {
    set j: nat | j < |lines| && item(lines[j]) != ""
  }

  lemma ItemLinesLast(lines: seq<string>, item: string -> string)
    requires lines != []
    ensures var n := |lines| - 1;
      ItemLines(lines, item) == ItemLines(lines[..n], item) + (if item(lines[n]) != "" then {n} else {})
  {
    var n := |lines| - 1;
    assert forall j: nat | j < n :: lines[..n][j] == lines[j];
  }

  /** There is one result per line with a non-empty item. */
  lemma {:induction false} NonEmptyCount(lines: seq<string>, item: string -> string)
    ensures |NonEmpty(lines, item)| == |ItemLines(lines, item)|
  {
    if lines != [] {
      var n := |lines| - 1;
      NonEmptyCount(lines[..n], item);
      ItemLinesLast(lines, item);
      assert n !in ItemLines(lines[..n], item);
    }
  }

  /** No line's non-empty item is dropped. */
  lemma {:induction false} NonEmptyKeepsAll(lines: seq<string>, item: string -> string)
    ensures forall j :: 0 <= j < |lines| && item(lines[j]) != "" ==> item(lines[j]) in NonEmpty(lines, item)
  {
    if lines != [] {
      var n := |lines| - 1;
      var init := lines[..n];
      NonEmptyKeepsAll(init, item);
      var kept := NonEmpty(lines, item);
      assert kept == NonEmpty(init, item) + (if item(lines[n]) != "" then [item(lines[n])] else []);
      forall j | 0 <= j < n && item(lines[j]) != "" ensures item(lines[j]) in kept {
        assert init[j] == lines[j];
      }
    }
  }

  /** The bullet items the eligibility text yields: no item is empty or has whitespace at either end. */
  function Bullets(text: string): (r: seq<string>)
    ensures forall k :: 0 <= k < |r| ==> r[k] != "" && !IsSpace(r[k][0]) && !IsSpace(r[k][|r[k]| - 1])
    ensures |r| <= |Split(Strip(text), '\n')|
  {
    var r := NonEmpty(Split(Strip(text), '\n'), BulletItem);
    NonEmptyItems(Split(Strip(text), '\n'));
    r
  }

  lemma {:induction false} NonEmptyItems(lines: seq<string>)
    ensures forall k :: 0 <= k < |NonEmpty(lines, BulletItem)| ==>
      !IsSpace(NonEmpty(lines, BulletItem)[k][0])
      && !IsSpace(NonEmpty(lines, BulletItem)[k][|NonEmpty(lines, BulletItem)[k]| - 1])
  {
    if lines != [] {
      NonEmptyItems(lines[..|lines| - 1]);
    }
  }

  lemma NonEmptyNext(lines: seq<string>, i: nat, item: string -> string)
    requires i < |lines|
    ensures NonEmpty(lines[..i + 1], item) ==
      NonEmpty(lines[..i], item) + (if item(lines[i]) != "" then [item(lines[i])] else [])
  {
    assert lines[..i + 1][..i] == lines[..i];
  }

  /** parse_eligibility */
  method ParseEligibility(text: string) returns (items: seq<string>)
    ensures items == Bullets(text)
  {
    var lines := Split(Strip(text), '\n');
    items := [];
    for i := 0 to |lines|
      invariant items == NonEmpty(lines[..i], BulletItem)
    {
      NonEmptyNext(lines, i, BulletItem);
      var line := Strip(LStripChar(LStripChar(Strip(lines[i]), '-'), '*'));
      if line != "" {
        items := items + [line];
      }
    }
    assert lines[..|lines|] == lines;
  }

  // ---------------------------------------------------------------- parse_steps

  lemma StripKeepsOut(s: string, c: char)
    requires c !in s
    ensures c !in Strip(s)
  {
    var t := LStrip(s);
    LStripSuffix(s);
    assert Strip(s) <= t;
  }

  /** The step of one line, if the stripped line is a numbered step. */
  function StepOf(line: string): (r: Option<string>)
    requires '\n' !in line
    ensures r.Some? ==> exists d, w :: StepForm(Strip(line), d, w) && r.value == Strip(Strip(line)[d + 1 + w..])
    ensures r.None? ==> forall d, w :: !StepForm(Strip(line), d, w)
  {
    StripKeepsOut(line, '\n');
    match StepTextAt(Strip(line))
    case None => None
    case Some(t) => Some(Strip(t))
  }

  /** The results of `step` over the lines that have one, in line order. */
  function Present(lines: seq<string>, step: string -> Option<string>): (r: seq<string>)
    ensures |r| <= |lines|
  {
    if lines == [] then []
    else
      var n := |lines| - 1;
      Present(lines[..n], step) + match step(lines[n]) case Some(t) => [t] case None => []
  }

  /** Each result comes from some line. */
  lemma {:induction false} PresentOrigin(lines: seq<string>, step: string -> Option<string>, k: nat)
    requires k < |Present(lines, step)|
    ensures exists j :: 0 <= j < |lines| && step(lines[j]) == Some(Present(lines, step)[k])
  {
    var n := |lines| - 1;
    var r, init := Present(lines, step), Present(lines[..n], step);
    assert r == init + match step(lines[n]) case Some(t) => [t] case None => [];
    if k < |init| {
      PresentOrigin(lines[..n], step, k);
      var j :| 0 <= j < |lines[..n]| && step(lines[..n][j]) == Some(init[k]);
      assert lines[..n][j] == lines[j] && r[k] == init[k];
    } else {
      assert step(lines[n]) == Some(r[k]);
    }
  }

  /** The positions of the lines `step` accepts, in order. */
  function Origins(lines: seq<string>, step: string -> Option<string>): (js: seq<nat>)
    ensures forall k :: 0 <= k < |js| ==> js[k] < |lines|
  {
    if lines == [] then []
    else
      var n := |lines| - 1;
      Origins(lines[..n], step) + (if step(lines[n]).Some? then [n] else [])
  }

  /** The results are those of the accepted lines, one each, in the same order. */
  lemma {:induction false} PresentFromOrigins(lines: seq<string>, step: string -> Option<string>)
    ensures |Origins(lines, step)| == |Present(lines, step)|
    ensures forall k :: 0 <= k < |Present(lines, step)| ==>
      step(lines[Origins(lines, step)[k]]) == Some(Present(lines, step)[k])
  {
    if lines != [] {
      var n := |lines| - 1;
      var init := lines[..n];
      PresentFromOrigins(init, step);
      var js, r := Origins(lines, step), Present(lines, step);
      var ji, ri := Origins(init, step), Present(init, step);
      assert r == ri + match step(lines[n]) case Some(t) => [t] case None => [];
      assert js == ji + (if step(lines[n]).Some? then [n] else []);
      assert forall k :: 0 <= k < |ji| ==> js[k] == ji[k] && r[k] == ri[k] && lines[ji[k]] == init[ji[k]];
    }
  }

  /** The accepted lines, in line order, none missed. */
  lemma {:induction false} OriginsInOrder(lines: seq<string>, step: string -> Option<string>)
    ensures forall k1, k2 :: 0 <= k1 < k2 < |Origins(lines, step)| ==> Origins(lines, step)[k1] < Origins(lines, step)[k2]
    ensures forall j :: 0 <= j < |lines| && step(lines[j]).Some? ==> j in Origins(lines, step)
  {
    if lines != [] {
      var n := |lines| - 1;
      var init := lines[..n];
      OriginsInOrder(init, step);
      var js, ji := Origins(lines, step), Origins(init, step);
      assert js == ji + (if step(lines[n]).Some? then [n] else []);
      forall j | 0 <= j < |lines| && step(lines[j]).Some? ensures j in js {
        if j < n {
          assert init[j] == lines[j];
          assert j in ji;
        }
      }
    }
  }

  lemma PresentNext(lines: seq<string>, i: nat, step: string -> Option<string>)
    requires i < |lines|
    ensures Present(lines[..i + 1], step) ==
      Present(lines[..i], step) + match step(lines[i]) case Some(t) => [t] case None => []
  {
    assert lines[..i + 1][..i] == lines[..i];
  }

  /** The step of a line, or None for a line that holds a line break (split lines never do). */
  function StepOfLine(line: string): Option<string> {
    if '\n' in line then None else StepOf(line)
  }

  /** The steps the text yields, in order. */
  function Steps(text: string): seq<string> {
    Present(Split(Strip(text), '\n'), StepOfLine)
  }

  /** Every step comes from a line of the step form: its text after "digits. ", stripped. */
  lemma StepsHaveStepForm(text: string, k: nat)
    requires k < |Steps(text)|
    ensures exists j :: (0 <= j < |Split(Strip(text), '\n')|
      && var line := Split(Strip(text), '\n')[j];
         exists d, w :: StepForm(Strip(line), d, w) && Steps(text)[k] == Strip(Strip(line)[d + 1 + w..]))
  {
    var lines := Split(Strip(text), '\n');
    PresentOrigin(lines, StepOfLine, k);
    var j :| 0 <= j < |lines| && StepOfLine(lines[j]) == Some(Steps(text)[k]);
    var line := lines[j];
    assert '\n' !in line;
    assert StepOf(line) == Some(Steps(text)[k]);
    var d, w :| StepForm(Strip(line), d, w) && Steps(text)[k] == Strip(Strip(line)[d + 1 + w..]);
  }

  /** Every line of the step form gives a step, and that step is among the results. */
  lemma StepsComplete(text: string, j: nat)
    requires j < |Split(Strip(text), '\n')|
    requires exists d, w :: StepForm(Strip(Split(Strip(text), '\n')[j]), d, w)
    ensures StepOfLine(Split(Strip(text), '\n')[j]).Some?
    ensures StepOfLine(Split(Strip(text), '\n')[j]).value in Steps(text)
  {
    var lines := Split(Strip(text), '\n');
    assert '\n' !in lines[j];
    PresentFromOrigins(lines, StepOfLine);
    OriginsInOrder(lines, StepOfLine);
    var js := Origins(lines, StepOfLine);
    assert j in js;
    var k :| 0 <= k < |js| && js[k] == j;
    assert StepOfLine(lines[j]) == Some(Steps(text)[k]);
  }

  /** parse_steps */
  method ParseSteps(text: string) returns (steps: seq<string>)
    ensures steps == Steps(text)
  {
    var lines := Split(Strip(text), '\n');
    steps := [];
    for i := 0 to |lines|
      invariant steps == Present(lines[..i], StepOfLine)
    {
      PresentNext(lines, i, StepOfLine);
      StripKeepsOut(lines[i], '\n');
      var line := Strip(lines[i]);
      var m := StepTextAt(line);
      if m.Some? {
        steps := steps + [Strip(m.value)];
      }
    }
    assert lines[..|lines|] == lines;
  }

  // ---------------------------------------------------------------- parse_faqs

  datatype Faq = Faq(question: string, answer: string)

  /** How the FAQ parser reads one stripped line. */
  datatype FaqLine =
    | QuestionLine(question: string)   // starts with "q:" in any case; the stripped rest
    | AnswerLine(answer: string, line: string)  // starts with "a:"; the stripped rest, and the line
    | TextLine(line: string)           // any other non-empty line
    | BlankLine

  function Classify(raw: string): FaqLine {
    var line := Strip(raw);
    if StartsWith(Lower(line), "q:") then QuestionLine(Strip(line[2..]))
    else if StartsWith(Lower(line), "a:") then AnswerLine(Strip(line[2..]), line)
    else if line != "" then TextLine(line)
    else BlankLine
  }

  /** The FAQ parser's state: the open question (if any), its answer lines, and the pairs emitted. */
  datatype FaqState = FaqState(question: Option<string>, answerLines: seq<string>, faqs: seq<Faq>)

  const FaqStart := FaqState(None, [], [])

  /** The open question is set and not empty. */
  predicate HasQuestion(st: FaqState) { st.question.Some? && st.question.value != "" }

  /** The pair of the open question, emitted when it has a question and some answer lines. */
  function Flush(st: FaqState): seq<Faq> {
    if HasQuestion(st) && st.answerLines != [] then [Faq(st.question.value, Join(st.answerLines, " "))] else []
  }

  /** One line through the state machine. An answer line without an open question is plain text. */
  function FaqStep(st: FaqState, line: FaqLine): FaqState {
    match line
    case QuestionLine(q) => FaqState(Some(q), [], st.faqs + Flush(st))
    case AnswerLine(a, l) => if HasQuestion(st) then st.(answerLines := [a]) else st.(answerLines := st.answerLines + [l])
    case TextLine(l) => st.(answerLines := st.answerLines + [l])
    case BlankLine => st
  }

  function FaqRun(st: FaqState, lines: seq<FaqLine>): FaqState {
    if lines == [] then st else FaqStep(FaqRun(st, lines[..|lines| - 1]), lines[|lines| - 1])
  }

  /** The pairs the state machine emits over the lines, the last open question included. */
  function FaqsOf(lines: seq<FaqLine>): seq<Faq> {
    var st := FaqRun(FaqStart, lines);
    st.faqs + Flush(st)
  }

  /** How each line is read. */
  function ClassifyAll(lines: seq<string>): (r: seq<FaqLine>)
    ensures |r| == |lines|
  {
    if lines == [] then [] else ClassifyAll(lines[..|lines| - 1]) + [Classify(lines[|lines| - 1])]
  }

  /** The pairs parse_faqs returns for a text. */
  function Faqs(text: string): seq<Faq> {
    FaqsOf(ClassifyAll(Split(Strip(text), '\n')))
  }

  /** The questions of the question lines, in order. */
  function QuestionsAsked(lines: seq<FaqLine>): seq<string> {
    if lines == [] then []
    else
      var n := |lines| - 1;
      QuestionsAsked(lines[..n]) + (if lines[n].QuestionLine? then [lines[n].question] else [])
  }

  function QuestionsOf(faqs: seq<Faq>): seq<string> {
    if faqs == [] then [] else QuestionsOf(faqs[..|faqs| - 1]) + [faqs[|faqs| - 1].question]
  }

  lemma {:induction false} QuestionsOfAppend(faqs: seq<Faq>, more: seq<Faq>)
    ensures QuestionsOf(faqs + more) == QuestionsOf(faqs) + QuestionsOf(more)
    decreases |more|
  {
    if more != [] {
      var all := faqs + more;
      var init := more[..|more| - 1];
      assert all[..|all| - 1] == faqs + init;
      assert all[|all| - 1] == more[|more| - 1];
      QuestionsOfAppend(faqs, init);
      calc {
        QuestionsOf(all);
        QuestionsOf(faqs + init) + [more[|more| - 1].question];
        QuestionsOf(faqs) + QuestionsOf(init) + [more[|more| - 1].question];
        QuestionsOf(faqs) + QuestionsOf(more);
      }
    } else {
      assert faqs + more == faqs;
    }
  }

  /** What holds of the state after any run of lines from the start state. */
  predicate FaqInvariant(st: FaqState, asked: seq<string>) {
    && (forall k :: 0 <= k < |st.faqs| ==> st.faqs[k].question != "")
    && (st.question.None? ==> st.faqs == [])
    && (st.question.Some? ==>
         && |asked| >= 1 && asked[|asked| - 1] == st.question.value
         && IsSubsequence(QuestionsOf(st.faqs), asked[..|asked| - 1]))
  }

  /** A question line keeps the invariant, the new question being the last one asked. */
  lemma QuestionStep(st: FaqState, asked: seq<string>, q: string)
    requires FaqInvariant(st, asked)
    ensures FaqInvariant(FaqStep(st, QuestionLine(q)), asked + [q])
  {
    var next := FaqStep(st, QuestionLine(q));
    var asked' := asked + [q];
    assert asked'[..|asked'| - 1] == asked;
    QuestionsOfAppend(st.faqs, Flush(st));
    if st.question.Some? {
      assert asked == asked[..|asked| - 1] + [st.question.value];
      if Flush(st) != [] {
        assert QuestionsOf(Flush(st)) == [st.question.value];
      } else {
        assert QuestionsOf(Flush(st)) == [];
        assert QuestionsOf(next.faqs) == QuestionsOf(st.faqs);
        SubsequenceExtend(QuestionsOf(st.faqs), asked);
      }
    } else {
      assert next.faqs == [];
    }
  }

  lemma {:induction false} FaqRunInvariant(lines: seq<FaqLine>)
    ensures FaqInvariant(FaqRun(FaqStart, lines), QuestionsAsked(lines))
  {
    if lines != [] {
      var n := |lines| - 1;
      FaqRunInvariant(lines[..n]);
      var st := FaqRun(FaqStart, lines[..n]);
      if lines[n].QuestionLine? {
        QuestionStep(st, QuestionsAsked(lines[..n]), lines[n].question);
      } else {
        assert FaqRun(FaqStart, lines).faqs == st.faqs;
        assert FaqRun(FaqStart, lines).question == st.question;
        assert QuestionsAsked(lines) == QuestionsAsked(lines[..n]);
      }
    }
  }

  /**
   * Every pair has a non-empty question, and the pairs follow the order in
   * which the questions were asked.
   */
  lemma FaqsInQuestionOrder(lines: seq<FaqLine>)
    ensures forall k :: 0 <= k < |FaqsOf(lines)| ==> FaqsOf(lines)[k].question != ""
    ensures IsSubsequence(QuestionsOf(FaqsOf(lines)), QuestionsAsked(lines))
  {
    FaqRunInvariant(lines);
    var st := FaqRun(FaqStart, lines);
    var asked := QuestionsAsked(lines);
    QuestionsOfAppend(st.faqs, Flush(st));
    if st.question.Some? {
      assert asked == asked[..|asked| - 1] + [st.question.value];
      if Flush(st) == [] {
        assert QuestionsOf(Flush(st)) == [];
        assert QuestionsOf(FaqsOf(lines)) == QuestionsOf(st.faqs);
        SubsequenceExtend(QuestionsOf(st.faqs), asked);
      } else {
        assert QuestionsOf(Flush(st)) == [st.question.value];
      }
    }
  }

  /** A question followed only by another question is dropped. */
  lemma UnansweredDropped(lines: seq<FaqLine>, q: string)
    ensures FaqsOf(lines + [QuestionLine(q)]) == FaqsOf(lines)
  {
    assert (lines + [QuestionLine(q)])[..|lines|] == lines;
  }

  lemma {:induction false} FaqRunAppend(st: FaqState, a: seq<FaqLine>, b: seq<FaqLine>)
    ensures FaqRun(st, a + b) == FaqRun(FaqRun(st, a), b)
    decreases |b|
  {
    if b != [] {
      var all := a + b;
      var init := b[..|b| - 1];
      assert all[..|all| - 1] == a + init;
      assert all[|all| - 1] == b[|b| - 1];
      FaqRunAppend(st, a, init);
      calc {
        FaqRun(st, all);
        FaqStep(FaqRun(st, a + init), b[|b| - 1]);
        FaqStep(FaqRun(FaqRun(st, a), init), b[|b| - 1]);
        FaqRun(FaqRun(st, a), b);
      }
    } else {
      assert a + b == a;
    }
  }

  /** Without a question line, the state keeps no question and no pairs. */
  lemma {:induction false} NoQuestionYet(lines: seq<FaqLine>)
    requires forall k :: 0 <= k < |lines| ==> !lines[k].QuestionLine?
    ensures FaqRun(FaqStart, lines).question.None? && FaqRun(FaqStart, lines).faqs == []
  {
    if lines != [] {
      NoQuestionYet(lines[..|lines| - 1]);
    }
  }

  /** Lines before the first question line make no difference. */
  lemma PreambleDiscarded(preamble: seq<FaqLine>, rest: seq<FaqLine>)
    requires forall k :: 0 <= k < |preamble| ==> !preamble[k].QuestionLine?
    requires rest != [] && rest[0].QuestionLine?
    ensures FaqsOf(preamble + rest) == FaqsOf(rest)
  {
    NoQuestionYet(preamble);
    var first := [rest[0]];
    assert rest == first + rest[1..];
    assert preamble + rest == (preamble + first) + rest[1..];
    FaqRunAppend(FaqStart, preamble + first, rest[1..]);
    FaqRunAppend(FaqStart, first, rest[1..]);
    FaqRunAppend(FaqStart, preamble, first);
    assert FaqRun(FaqStart, preamble + first) == FaqRun(FaqStart, first);
  }

  lemma RunNext(lines: seq<string>, i: nat)
    requires i < |lines|
    ensures FaqRun(FaqStart, ClassifyAll(lines[..i + 1])) ==
      FaqStep(FaqRun(FaqStart, ClassifyAll(lines[..i])), Classify(lines[i]))
  {
    assert lines[..i + 1][..i] == lines[..i];
    var c := ClassifyAll(lines[..i + 1]);
    assert c == ClassifyAll(lines[..i]) + [Classify(lines[i])];
    assert c[..|c| - 1] == ClassifyAll(lines[..i]);
  }

  /** One step of the state machine, by the tests parse_faqs makes on the stripped line. */
  lemma FaqStepCases(st: FaqState, raw: string)
    ensures var line := Strip(raw);
      var next := FaqStep(st, Classify(raw));
      && (StartsWith(Lower(line), "q:") ==>
            next == FaqState(Some(Strip(line[2..])), [], st.faqs + Flush(st)))
      && (!StartsWith(Lower(line), "q:") && StartsWith(Lower(line), "a:") && HasQuestion(st) ==>
            next == st.(answerLines := [Strip(line[2..])]))
      && (!StartsWith(Lower(line), "q:") && !(StartsWith(Lower(line), "a:") && HasQuestion(st)) && line != "" ==>
            next == st.(answerLines := st.answerLines + [line]))
      && (line == "" ==> next == st)
  {
    var line := Strip(raw);
    if line == "" {
      assert !StartsWith(Lower(line), "q:") && !StartsWith(Lower(line), "a:");
    }
  }

  /** The body of parse_faqs's loop: one raw line read into the question, answer lines and pairs. */
  method ReadFaqLine(currentQ: Option<string>, currentA: seq<string>, faqs: seq<Faq>, raw: string)
    returns (q: Option<string>, a: seq<string>, f: seq<Faq>)
    ensures FaqState(q, a, f) == FaqStep(FaqState(currentQ, currentA, faqs), Classify(raw))
  {
    q, a, f := currentQ, currentA, faqs;
    var line := Strip(raw);
    ghost var st := FaqState(currentQ, currentA, faqs);
    FaqStepCases(st, raw);
    if StartsWith(Lower(line), "q:") {
      if q.Some? && q.value != "" && a != [] {
        f := f + [Faq(q.value, Join(a, " "))];
      } else {
        assert f == f + [];
      }
      q := Some(Strip(line[2..]));
      a := [];
    } else if StartsWith(Lower(line), "a:") && q.Some? && q.value != "" {
      a := [Strip(line[2..])];
    } else if line != "" {
      a := a + [line];
    }
  }

  /** The loop of parse_faqs: every line read, in order, from the start state. */
  method ReadFaqLines(lines: seq<string>) returns (currentQ: Option<string>, currentA: seq<string>, faqs: seq<Faq>)
    ensures FaqState(currentQ, currentA, faqs) == FaqRun(FaqStart, ClassifyAll(lines))
  {
    faqs := [];
    currentQ := None;
    currentA := [];
    for i := 0 to |lines|
      invariant FaqState(currentQ, currentA, faqs) == FaqRun(FaqStart, ClassifyAll(lines[..i]))
    {
      RunNext(lines, i);
      currentQ, currentA, faqs := ReadFaqLine(currentQ, currentA, faqs, lines[i]);
    }
    assert lines[..|lines|] == lines;
  }

  /** parse_faqs: the state machine run over the stripped text's lines, then the last question flushed. */
  method ParseFaqs(text: string) returns (faqs: seq<Faq>)
    ensures faqs == Faqs(text)
  {
    var lines := Split(Strip(text), '\n');
    var currentQ, currentA;
    currentQ, currentA, faqs := ReadFaqLines(lines);
    ghost var st := FaqState(currentQ, currentA, faqs);
    if currentQ.Some? && currentQ.value != "" && currentA != [] {
      faqs := faqs + [Faq(currentQ.value, Join(currentA, " "))];
    }
    assert faqs == st.faqs + Flush(st);
  }

  // ---------------------------------------------------------------- is_monetization_on

  /** is_monetization_on: the second test of the source adds nothing to the first. */
  function IsMonetizationOn(text: string): (r: bool)
    ensures r <==> Contains(Lower(text), "[x]")
  {
    var t := Lower(text);
    CheckedItemHasBox(t);
    Contains(t, "[x]") || Contains(t, "- [x]")
  }

  lemma CheckedItemHasBox(t: string)
    ensures Contains(t, "- [x]") ==> Contains(t, "[x]")
  {
    if Contains(t, "- [x]") {
      var i :| 0 <= i <= |t| - 5 && "- [x]" <= t[i..];
      assert t[i + 2..i + 5] == "[x]";
      ContainsAt(t, "[x]", i + 2);
    }
  }

  // ---------------------------------------------------------------- builders

  /** A row of the key-deadlines table. */
  datatype DeadlineRow = DeadlineRow(action: string, date: string)

  /** build_deadline_table: None stands for the empty string; otherwise the rows of the table. */
  function DeadlineTable(deadline: string, optOut: string, hearing: string): (r: Option<seq<DeadlineRow>>)
    ensures r.None? <==> deadline == "" && optOut == "" && hearing == ""
    ensures r.Some? ==>
      |r.value| == (if deadline != "" then 1 else 0) + (if optOut != "" then 2 else 0) + (if hearing != "" then 1 else 0)
    ensures r.Some? && optOut != "" ==>
      DeadlineRow("Opt Out (Exclude Yourself)", optOut) in r.value
      && DeadlineRow("Submit an Objection", optOut) in r.value
    ensures r.Some? ==> forall row :: row in r.value ==> row.date != ""
  {
    if deadline == "" && optOut == "" && hearing == "" then None
    else
      Some((if deadline != "" then [DeadlineRow("File a Claim", deadline)] else [])
        + (if optOut != "" then [DeadlineRow("Opt Out (Exclude Yourself)", optOut)] else [])
        + (if optOut != "" then [DeadlineRow("Submit an Objection", optOut)] else [])
        + (if hearing != "" then [DeadlineRow("Final Approval Hearing", hearing)] else []))
  }

  /** A card of the "What Can I Get?" grid. */
  datatype BenefitCard = BenefitCard(heading: string, amount: string)

  /** build_benefit_cards: None stands for the empty string; otherwise the cards, one per given amount. */
  function BenefitCards(maxPayment: string, nodocPayment: string, caPayment: string, creditMonitoring: string)
    : (r: Option<seq<BenefitCard>>)
    ensures r.None? <==> maxPayment == "" && nodocPayment == "" && caPayment == "" && creditMonitoring == ""
    ensures r.Some? ==>
      |r.value| == (if maxPayment != "" then 1 else 0) + (if nodocPayment != "" then 1 else 0)
                 + (if caPayment != "" then 1 else 0) + (if creditMonitoring != "" then 1 else 0)
    ensures r.Some? ==> forall c :: c in r.value ==> c.amount != ""
  {
    var cards := (if maxPayment != "" then [BenefitCard("Documented Losses", maxPayment)] else [])
      + (if nodocPayment != "" then [BenefitCard("Pro Rata Cash", nodocPayment)] else [])
      + (if caPayment != "" then [BenefitCard("CA Statutory (CA only)", caPayment)] else [])
      + (if creditMonitoring != "" then [BenefitCard("Credit Monitoring", creditMonitoring)] else []);
    if cards == [] then None else Some(cards)
  }

  // ---------------------------------------------------------------- update_index

  const InsertMarker := "<!-- ARTICLES_LIST_INSERT_HERE -->"

  /** The path of an article, as the index links it. */
  function ArticleLink(slug: string): string { "/articles/" + slug + ".html" }

  /** The deadline part of a card; omitted for no deadline or "none listed". */
  function DeadlineText(deadline: string): (r: string)
    ensures r == "" <==> deadline == "" || Lower(deadline) == "none listed"
    ensures r != "" ==> Contains(r, deadline)
  {
    if deadline != "" && Lower(deadline) != "none listed" then
      ContainsSelf(deadline);
      ContainsInfix("Deadline: ", deadline, " &bull; ", deadline);
      "Deadline: " + deadline + " &bull; "
    else ""
  }

  /** The index card of an article. */
  function Card(slug: string, title: string, deadline: string, lastUpdated: string, blurb: string): (r: string)
    ensures Contains(r, ArticleLink(slug))
  {
    var before := "\n<article class=\"bg-white rounded-2xl shadow-sm p-5\">\n  <h2 class=\"text-xl font-bold text-gray-900 mb-1\">\n    <a href=\"";
    var after := "\" class=\"hover:underline\">" + title + "</a>\n  </h2>\n  <p class=\"text-sm text-gray-600 mb-2\">"
      + DeadlineText(deadline) + "Updated " + lastUpdated + "</p>\n  <p class=\"text-gray-700\">" + blurb
      + "</p>\n</article>\n";
    ContainsSelf(ArticleLink(slug));
    ContainsInfix(before, ArticleLink(slug), after, ArticleLink(slug));
    before + ArticleLink(slug) + after
  }

  /** The string logic of update_index: the index content after the call. */
  function UpdateIndex(content: string, slug: string, title: string, deadline: string,
                       lastUpdated: string, blurb: string): string
  {
    AddCard(content, ArticleLink(slug), Card(slug, title, deadline, lastUpdated, blurb))
  }

  /** A page that does not yet link the article gets its card right after the marker. */
  function AddCard(content: string, link: string, card: string): string
  {
    if Contains(content, link) then content
    else ReplaceAll(content, InsertMarker, InsertMarker + card)
  }

  lemma AddCardLinks(content: string, link: string, card: string)
    requires Contains(card, link)
    ensures var r := AddCard(content, link, card);
      && (Contains(content, link) ==> r == content)
      && (!Contains(content, InsertMarker) ==> r == content)
      && (Contains(content, InsertMarker) ==> Contains(r, link))
  {
    ContainsInfix(InsertMarker, card, [], link);
    assert InsertMarker + card + [] == InsertMarker + card;
    ReplaceInserts(content, InsertMarker, InsertMarker + card, link);
  }

  /** A page that already links the article, or has no insertion marker, is left as it is. */
  lemma UpdateIndexKeeps(content: string, slug: string, title: string, deadline: string,
                         lastUpdated: string, blurb: string)
    requires Contains(content, ArticleLink(slug)) || !Contains(content, InsertMarker)
    ensures UpdateIndex(content, slug, title, deadline, lastUpdated, blurb) == content
  {
    AddCardLinks(content, ArticleLink(slug), Card(slug, title, deadline, lastUpdated, blurb));
  }

  /** A page with the insertion marker links the article after the update. */
  lemma UpdateIndexLinks(content: string, slug: string, title: string, deadline: string,
                         lastUpdated: string, blurb: string)
    requires Contains(content, InsertMarker)
    ensures Contains(UpdateIndex(content, slug, title, deadline, lastUpdated, blurb), ArticleLink(slug))
  {
    AddCardLinks(content, ArticleLink(slug), Card(slug, title, deadline, lastUpdated, blurb));
  }

  lemma AddCardIdempotent(content: string, link: string, card: string)
    requires Contains(card, link)
    ensures AddCard(AddCard(content, link, card), link, card) == AddCard(content, link, card)
  {
    var once := AddCard(content, link, card);
    AddCardLinks(content, link, card);
    AddCardLinks(once, link, card);
  }

  /** Running the index update twice is the same as running it once. */
  lemma UpdateIndexIdempotent(content: string, slug: string, title: string, deadline: string,
                              lastUpdated: string, blurb: string)
    ensures var once := UpdateIndex(content, slug, title, deadline, lastUpdated, blurb);
      UpdateIndex(once, slug, title, deadline, lastUpdated, blurb) == once
  {
    AddCardIdempotent(content, ArticleLink(slug), Card(slug, title, deadline, lastUpdated, blurb));
  }

  // ---------------------------------------------------------------- main

  /** Where main writes the article and whether it then updates the index. */
  datatype Target = Target(outPath: string, updatesIndex: bool)

  /**
   * The checks and path choice of main for a form's title and slug; `mode`
   * is the MODE setting, None when unset.
   */
  function PublishTarget(title: string, slug: string, mode: Option<string>): (r: Result<Target, string>)
    ensures r.Failure? <==> title == "" || slug == ""
    ensures r.Success? ==>
      && (r.value.updatesIndex <==> Lower(mode.GetOr("draft")) == "publish")
      && (r.value.updatesIndex ==> r.value.outPath == "articles/" + slug + ".html")
      && (!r.value.updatesIndex ==> r.value.outPath == "articles/drafts/" + slug + ".html")
  {
    if title == "" || slug == "" then Failure("Error: 'Article title' and 'URL slug' are required.")
    else
      var publish := Lower(mode.GetOr("draft")) == "publish";
      Success(Target(if publish then "articles/" + slug + ".html" else "articles/drafts/" + slug + ".html", publish))
  }

  /** main: the title and slug are read from the parsed form. */
  function MainTarget(raw: map<string, string>, mode: Option<string>): (r: Result<Target, string>)
    ensures r.Failure? <==> GetField(raw, ["article title"]) == "" || GetField(raw, ["url slug"]) == ""
  {
    PublishTarget(GetField(raw, ["article title"]), GetField(raw, ["url slug"]), mode)
  }

  /** Without MODE the article is a draft and the index is left alone. */
  lemma DefaultIsDraft(title: string, slug: string)
    requires title != "" && slug != ""
    ensures PublishTarget(title, slug, None).Success?
    ensures !PublishTarget(title, slug, None).value.updatesIndex
    ensures StartsWith(PublishTarget(title, slug, None).value.outPath, "articles/drafts/")
  {
    assert Lower("draft") == "draft";
  }
}
