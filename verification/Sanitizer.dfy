/** Report sanitising: emojis go from everything but the quoted lesson plan, which stays
    verbatim, and the emoji scanner agrees. */
module Sanitizer {
  import opened Wrappers
  import opened Text

  // ------------------------------------------------------------- characters

  /** The character class of the emoji pattern. */
  predicate IsEmoji(c: char) {
    || '\U{1F300}' <= c <= '\U{1F5FF}' || '\U{1F600}' <= c <= '\U{1F64F}' || '\U{1F680}' <= c <= '\U{1F6FF}'
    || '\U{1F700}' <= c <= '\U{1F77F}' || '\U{1F780}' <= c <= '\U{1F7FF}' || '\U{1F800}' <= c <= '\U{1F8FF}'
    || '\U{1F900}' <= c <= '\U{1F9FF}' || '\U{1FA00}' <= c <= '\U{1FA6F}' || '\U{1FA70}' <= c <= '\U{1FAFF}'
    || '\U{2600}' <= c <= '\U{26FF}' || '\U{2700}' <= c <= '\U{27BF}' || '\U{2300}' <= c <= '\U{23FF}'
    || '\U{2B00}' <= c <= '\U{2BFF}' || '\U{1F000}' <= c <= '\U{1F02F}' || '\U{1F100}' <= c <= '\U{1F1FF}'
    || '\U{1F200}' <= c <= '\U{1F2FF}' || '\U{FE00}' <= c <= '\U{FE0F}' || c == '\U{200D}' || c == '\U{20E3}'
  }

  predicate IsBlank(c: char) { c == ' ' || c == '\t' }

  predicate NoEmoji(s: string) { forall c | c in s :: !IsEmoji(c) }

  // ------------------------------------------------------------ substitutions

  /** A digit with its variation selector and keycap gives the digit. */
  function DropKeycaps(s: string): string {
    if s == "" then ""
    else if |s| >= 3 && '0' <= s[0] <= '9' && s[1] == '\U{FE0F}' && s[2] == '\U{20E3}' then [s[0]] + DropKeycaps(s[3..])
    else [s[0]] + DropKeycaps(s[1..])
  }

  function DropEmojis(s: string): string {
    if s == "" then ""
    else if IsEmoji(s[0]) then DropEmojis(s[1..])
    else [s[0]] + DropEmojis(s[1..])
  }

  /** The length of the leading run of blanks. */
  function Blanks(s: string): (n: nat)
    ensures n <= |s|
  {
    if s != "" && IsBlank(s[0]) then 1 + Blanks(s[1..]) else 0
  }

  /** Two blanks or more after something visible become one space. */
  function MergeBlanks(s: string, afterVisible: bool): string
    decreases |s|
  {
    if s == "" then ""
    else if afterVisible && Blanks(s) >= 2 then [' '] + MergeBlanks(s[Blanks(s)..], false)
    else [s[0]] + MergeBlanks(s[1..], !IsSpace(s[0]))
  }

  /** Blanks before a line break go. */
  function TrimLines(s: string): string
    decreases |s|
  {
    if s == "" then ""
    else
      var n := Blanks(s);
      if n > 0 && n < |s| && s[n] == '\n' then ['\n'] + TrimLines(s[n + 1..])
      else [s[0]] + TrimLines(s[1..])
  }

  /** The first `**` at or after `i`, or the end of the text. */
  function NextStars(s: string, i: nat): (j: nat)
    requires i <= |s|
    ensures i <= j <= |s|
    ensures j < |s| ==> j + 2 <= |s| && s[j] == '*' && s[j + 1] == '*'
    decreases |s| - i
  {
    if i + 2 > |s| then |s|
    else if s[i] == '*' && s[i + 1] == '*' then i
    else NextStars(s, i + 1)
  }

  /** A bold span loses the white space at its inner ends, across lines. */
  function TightenBold(s: string): string
    decreases |s|
  {
    if s == "" then ""
    else if "**" <= s && 2 < NextStars(s, 2) < |s| then
      var j := NextStars(s, 2);
      var content := Strip(s[2..j]);
      (if content != "" then "**" + content + "**" else s[..j + 2]) + TightenBold(s[j + 2..])
    else [s[0]] + TightenBold(s[1..])
  }

  function RTrim(s: string): string {
    if s != "" && IsBlank(s[|s| - 1]) then RTrim(s[..|s| - 1]) else s
  }

  /** `strip_emojis`. */
  function StripEmojis(text: string): string {
    RTrim(TightenBold(TrimLines(MergeBlanks(DropEmojis(DropKeycaps(text)), false))))
  }

  lemma {:induction false} DropEmojisClean(s: string)
    ensures NoEmoji(DropEmojis(s))
  {
    if s != "" {
      DropEmojisClean(s[1..]);
    }
  }

  lemma {:induction false} MergeBlanksClean(s: string, afterVisible: bool)
    requires NoEmoji(s)
    ensures NoEmoji(MergeBlanks(s, afterVisible))
    decreases |s|
  {
    if s != "" {
      if afterVisible && Blanks(s) >= 2 {
        MergeBlanksClean(s[Blanks(s)..], false);
      } else {
        MergeBlanksClean(s[1..], !IsSpace(s[0]));
      }
    }
  }

  lemma {:induction false} TrimLinesClean(s: string)
    requires NoEmoji(s)
    ensures NoEmoji(TrimLines(s))
    decreases |s|
  {
    if s != "" {
      var n := Blanks(s);
      if n > 0 && n < |s| && s[n] == '\n' {
        TrimLinesClean(s[n + 1..]);
      } else {
        TrimLinesClean(s[1..]);
      }
    }
  }

  lemma {:induction false} LStripPart(s: string)
    ensures forall c | c in LStrip(s) :: c in s
  {
    if s != "" && IsSpace(s[0]) {
      LStripPart(s[1..]);
    }
  }

  lemma {:induction false} RStripPart(s: string)
    ensures forall c | c in RStrip(s) :: c in s
  {
    if s != "" && IsSpace(s[|s| - 1]) {
      RStripPart(s[..|s| - 1]);
    }
  }

  lemma {:induction false} TightenBoldClean(s: string)
    requires NoEmoji(s)
    ensures NoEmoji(TightenBold(s))
    decreases |s|
  {
    if s != "" {
      if "**" <= s && 2 < NextStars(s, 2) < |s| {
        var j := NextStars(s, 2);
        LStripPart(s[2..j]);
        RStripPart(LStrip(s[2..j]));
        TightenBoldClean(s[j + 2..]);
      } else {
        TightenBoldClean(s[1..]);
      }
    }
  }

  lemma {:induction false} RTrimPart(s: string)
    ensures forall c | c in RTrim(s) :: c in s
  {
    if s != "" && IsBlank(s[|s| - 1]) {
      RTrimPart(s[..|s| - 1]);
    }
  }

  /** No emoji survives the sanitizer, in any text. */
  lemma StripEmojisClean(text: string)
    ensures NoEmoji(StripEmojis(text))
  {
    var a := DropEmojis(DropKeycaps(text));
    DropEmojisClean(DropKeycaps(text));
    MergeBlanksClean(a, false);
    TrimLinesClean(MergeBlanks(a, false));
    TightenBoldClean(TrimLines(MergeBlanks(a, false)));
    RTrimPart(TightenBold(TrimLines(MergeBlanks(a, false))));
  }

  /** What can be seen of a text besides its emojis. */
  function Visible(s: string): string {
    if s == "" then ""
    else if IsSpace(s[0]) || IsEmoji(s[0]) then Visible(s[1..])
    else [s[0]] + Visible(s[1..])
  }

  lemma {:induction false} VisibleAppend(s: string, t: string)
    ensures Visible(s + t) == Visible(s) + Visible(t)
  {
    if s == "" {
      assert s + t == t;
    } else {
      assert (s + t)[1..] == s[1..] + t;
      VisibleAppend(s[1..], t);
    }
  }

  lemma {:induction false} NothingVisible(s: string)
    requires forall i | 0 <= i < |s| :: IsSpace(s[i]) || IsEmoji(s[i])
    ensures Visible(s) == ""
  {
    if s != "" {
      NothingVisible(s[1..]);
    }
  }

  lemma {:induction false} KeycapsVisible(s: string)
    ensures Visible(DropKeycaps(s)) == Visible(s)
  {
    if |s| >= 3 && '0' <= s[0] <= '9' && s[1] == '\U{FE0F}' && s[2] == '\U{20E3}' {
      assert s == s[..1] + (s[1..3] + s[3..]);
      VisibleAppend(s[..1], s[1..3] + s[3..]);
      VisibleAppend(s[1..3], s[3..]);
      NothingVisible(s[1..3]);
      VisibleAppend(s[..1], DropKeycaps(s[3..]));
      KeycapsVisible(s[3..]);
      assert s[..1] == [s[0]];
    } else if s != "" {
      VisibleAppend([s[0]], DropKeycaps(s[1..]));
      KeycapsVisible(s[1..]);
      assert s == [s[0]] + s[1..];
      VisibleAppend([s[0]], s[1..]);
    }
  }

  lemma {:induction false} EmojisVisible(s: string)
    ensures Visible(DropEmojis(s)) == Visible(s)
  {
    if s != "" {
      EmojisVisible(s[1..]);
      if !IsEmoji(s[0]) {
        VisibleAppend([s[0]], DropEmojis(s[1..]));
        VisibleAppend([s[0]], s[1..]);
        assert s == [s[0]] + s[1..];
      }
    }
  }

  lemma {:induction false} BlanksAre(s: string)
    ensures forall i | 0 <= i < Blanks(s) :: IsBlank(s[i])
  {
    if s != "" && IsBlank(s[0]) {
      BlanksAre(s[1..]);
    }
  }

  /** Dropping leading white space drops nothing visible. */
  lemma VisibleBehind(s: string, n: nat)
    requires n <= |s| && forall i | 0 <= i < n :: IsSpace(s[i])
    ensures Visible(s[n..]) == Visible(s)
  {
    assert s == s[..n] + s[n..];
    VisibleAppend(s[..n], s[n..]);
    NothingVisible(s[..n]);
  }

  lemma VisibleFront(c: char, s: string)
    ensures Visible([c] + s) == (if IsSpace(c) || IsEmoji(c) then "" else [c]) + Visible(s)
  {
    assert ([c] + s)[1..] == s;
  }

  lemma {:induction false} MergeVisible(s: string, afterVisible: bool)
    ensures Visible(MergeBlanks(s, afterVisible)) == Visible(s)
    decreases |s|
  {
    if s != "" {
      if afterVisible && Blanks(s) >= 2 {
        MergeVisible(s[Blanks(s)..], false);
        BlanksAre(s);
        VisibleBehind(s, Blanks(s));
        VisibleFront(' ', MergeBlanks(s[Blanks(s)..], false));
      } else {
        MergeVisible(s[1..], !IsSpace(s[0]));
        VisibleFront(s[0], MergeBlanks(s[1..], !IsSpace(s[0])));
      }
    }
  }

  lemma {:induction false} TrimVisible(s: string)
    ensures Visible(TrimLines(s)) == Visible(s)
    decreases |s|
  {
    if s != "" {
      var n := Blanks(s);
      if n > 0 && n < |s| && s[n] == '\n' {
        TrimVisible(s[n + 1..]);
        BlanksAre(s);
        VisibleBehind(s, n + 1);
        VisibleFront('\n', TrimLines(s[n + 1..]));
      } else {
        TrimVisible(s[1..]);
        VisibleFront(s[0], TrimLines(s[1..]));
      }
    }
  }

  lemma {:induction false} LStripShows(s: string)
    ensures Visible(LStrip(s)) == Visible(s)
  {
    if s != "" && IsSpace(s[0]) {
      LStripShows(s[1..]);
    }
  }

  lemma VisibleBack(s: string)
    requires s != "" && IsSpace(s[|s| - 1])
    ensures Visible(s[..|s| - 1]) == Visible(s)
  {
    var n := |s| - 1;
    assert s == s[..n] + [s[n]];
    VisibleAppend(s[..n], [s[n]]);
    NothingVisible([s[n]]);
  }

  lemma {:induction false} RStripVisible(s: string)
    ensures Visible(RStrip(s)) == Visible(s)
  {
    if s != "" && IsSpace(s[|s| - 1]) {
      RStripVisible(s[..|s| - 1]);
      VisibleBack(s);
    }
  }

  lemma {:induction false} RTrimVisible(s: string)
    ensures Visible(RTrim(s)) == Visible(s)
  {
    if s != "" && IsBlank(s[|s| - 1]) {
      RTrimVisible(s[..|s| - 1]);
      VisibleBack(s);
    }
  }

  /** A bold span keeps what it shows. */
  lemma SpanVisible(s: string, j: nat)
    requires "**" <= s && 2 < j && j + 2 <= |s| && s[j] == '*' && s[j + 1] == '*'
    ensures var content := Strip(s[2..j]);
      Visible(if content != "" then "**" + content + "**" else s[..j + 2]) == Visible(s[..j + 2])
  {
    var inner := s[2..j];
    LStripShows(inner);
    RStripVisible(LStrip(inner));
    assert s[..j + 2] == "**" + inner + "**";
    VisibleAppend("**" + inner, "**");
    VisibleAppend("**", inner);
    VisibleAppend("**" + Strip(inner), "**");
    VisibleAppend("**", Strip(inner));
  }

  lemma {:induction false} TightenVisible(s: string)
    ensures Visible(TightenBold(s)) == Visible(s)
    decreases |s|
  {
    if s != "" {
      if "**" <= s && 2 < NextStars(s, 2) < |s| {
        var j := NextStars(s, 2);
        var content := Strip(s[2..j]);
        var shown := if content != "" then "**" + content + "**" else s[..j + 2];
        SpanVisible(s, j);
        TightenVisible(s[j + 2..]);
        VisibleAppend(shown, TightenBold(s[j + 2..]));
        VisibleAppend(s[..j + 2], s[j + 2..]);
        assert s == s[..j + 2] + s[j + 2..];
      } else {
        TightenVisible(s[1..]);
        VisibleFront(s[0], TightenBold(s[1..]));
      }
    }
  }

  /** And nothing else that can be seen is lost, in any text, or moved. */
  lemma StripEmojisKeeps(text: string)
    ensures Visible(StripEmojis(text)) == Visible(text)
  {
    var a := DropKeycaps(text);
    var b := DropEmojis(a);
    var c := MergeBlanks(b, false);
    var d := TrimLines(c);
    KeycapsVisible(text);
    EmojisVisible(a);
    MergeVisible(b, false);
    TrimVisible(c);
    TightenVisible(d);
    RTrimVisible(TightenBold(d));
  }

  /** No two blanks follow something visible. */
  predicate NoGap(s: string, afterVisible: bool) {
    s == ""
    || (!(afterVisible && |s| > 1 && IsBlank(s[0]) && IsBlank(s[1])) && NoGap(s[1..], !IsSpace(s[0])))
  }

  /** No blank stands before a line break. */
  predicate NoTrail(s: string) {
    s == "" || (!(|s| > 1 && IsBlank(s[0]) && s[1] == '\n') && NoTrail(s[1..]))
  }

  /** Nothing is bold. */
  predicate NoStars(s: string) { s == "" || (!("**" <= s) && NoStars(s[1..])) }

  lemma MergeFirst(s: string)
    requires s != ""
    ensures MergeBlanks(s, false) != "" && MergeBlanks(s, false)[0] == s[0]
  {
  }

  /** The gaps that emojis leave are closed, */
  lemma {:induction false} MergeCloses(s: string, afterVisible: bool)
    ensures NoGap(MergeBlanks(s, afterVisible), afterVisible)
    decreases |s|
  {
    if s != "" {
      if afterVisible && Blanks(s) >= 2 {
        var n := Blanks(s);
        var out := MergeBlanks(s[n..], false);
        MergeCloses(s[n..], false);
        BlanksEnd(s);
        if s[n..] != "" {
          MergeFirst(s[n..]);
        }
        assert ([' '] + out)[1..] == out;
      } else {
        var out := MergeBlanks(s[1..], !IsSpace(s[0]));
        MergeCloses(s[1..], !IsSpace(s[0]));
        if IsBlank(s[0]) && s[1..] != "" {
          MergeFirst(s[1..]);
        }
        assert ([s[0]] + out)[1..] == out;
      }
    }
  }

  lemma {:induction false} BlanksEnd(s: string)
    ensures Blanks(s) < |s| ==> !IsBlank(s[Blanks(s)])
  {
    if s != "" && IsBlank(s[0]) {
      BlanksEnd(s[1..]);
    }
  }

  /** and where there is none nothing changes. */
  lemma {:induction false} MergeKeeps(s: string, afterVisible: bool)
    requires NoGap(s, afterVisible)
    ensures MergeBlanks(s, afterVisible) == s
  {
    if s != "" {
      MergeKeeps(s[1..], !IsSpace(s[0]));
      assert s == [s[0]] + s[1..];
    }
  }

  lemma TrimFirst(s: string)
    requires s != ""
    ensures TrimLines(s) != ""
    ensures TrimLines(s)[0] == '\n' ==> s[0] == '\n' || (Blanks(s) < |s| && s[Blanks(s)] == '\n')
  {
  }

  /** Likewise with blanks at line ends */
  lemma {:induction false} TrimCloses(s: string)
    ensures NoTrail(TrimLines(s))
    decreases |s|
  {
    if s != "" {
      var n := Blanks(s);
      if n > 0 && n < |s| && s[n] == '\n' {
        TrimCloses(s[n + 1..]);
        assert (['\n'] + TrimLines(s[n + 1..]))[1..] == TrimLines(s[n + 1..]);
      } else {
        TrimCloses(s[1..]);
        if s[1..] != "" {
          TrimFirst(s[1..]);
        }
        assert ([s[0]] + TrimLines(s[1..]))[1..] == TrimLines(s[1..]);
      }
    }
  }

  lemma {:induction false} NoTrailBlanks(s: string)
    requires NoTrail(s)
    ensures !(Blanks(s) > 0 && Blanks(s) < |s| && s[Blanks(s)] == '\n')
  {
    if s != "" && IsBlank(s[0]) {
      NoTrailBlanks(s[1..]);
    }
  }

  lemma {:induction false} TrimKeeps(s: string)
    requires NoTrail(s)
    ensures TrimLines(s) == s
  {
    if s != "" {
      NoTrailBlanks(s);
      TrimKeeps(s[1..]);
      assert s == [s[0]] + s[1..];
    }
  }

  lemma {:induction false} TightenKeeps(s: string)
    requires NoStars(s)
    ensures TightenBold(s) == s
  {
    if s != "" {
      TightenKeeps(s[1..]);
      assert s == [s[0]] + s[1..];
    }
  }

  lemma {:induction false} NextStarsIs(s: string, i: nat, j: nat)
    requires i <= j && j + 2 <= |s| && s[j] == '*' && s[j + 1] == '*'
    requires forall k | i <= k < j :: !(s[k] == '*' && s[k + 1] == '*')
    ensures NextStars(s, i) == j
    decreases j - i
  {
    if i < j {
      NextStarsIs(s, i + 1, j);
    }
  }

  /** A bold span loses the white space at its ends, unless it is nothing but white space. */
  lemma BoldTightened(inner: string, rest: string)
    requires inner != "" && forall k | 0 <= k < |inner| :: !((inner + "**")[k] == '*' && (inner + "**")[k + 1] == '*')
    ensures TightenBold("**" + inner + "**" + rest)
            == "**" + (if Strip(inner) != "" then Strip(inner) else inner) + "**" + TightenBold(rest)
  {
    var s := "**" + inner + "**" + rest;
    var j := 2 + |inner|;
    forall k | 2 <= k < j ensures !(s[k] == '*' && s[k + 1] == '*') {
      assert s[k] == (inner + "**")[k - 2] && s[k + 1] == (inner + "**")[k - 1];
    }
    NextStarsIs(s, 2, j);
    assert "**" <= s && s[2..j] == inner && s[j + 2..] == rest && s[..j + 2] == "**" + inner + "**";
  }

  lemma {:induction false} EmojisKeep(s: string)
    requires NoEmoji(s)
    ensures DropEmojis(s) == s && DropKeycaps(s) == s
  {
    if s != "" {
      assert forall c | c in s[1..] :: c in s;
      EmojisKeep(s[1..]);
      assert s == [s[0]] + s[1..];
      assert |s| > 1 ==> s[1] in s;
    }
  }

  lemma RTrimCloses(s: string)
    ensures RTrim(s) != "" ==> !IsBlank(RTrim(s)[|RTrim(s)| - 1])
  {
    if s != "" && IsBlank(s[|s| - 1]) {
      RTrimCloses(s[..|s| - 1]);
    }
  }

  /** A text in order is left alone. */
  lemma CleanTextStays(text: string)
    requires NoEmoji(text) && NoGap(text, false) && NoTrail(text) && NoStars(text)
    requires text != "" ==> !IsBlank(text[|text| - 1])
    ensures StripEmojis(text) == text
  {
    EmojisKeep(text);
    MergeKeeps(text, false);
    TrimKeeps(text);
    TightenKeeps(text);
  }

  // ------------------------------------------------------------------- report

  /** `^\s*>`. */
  predicate Quoted(line: string) { var s := LStrip(line); s != "" && s[0] == '>' }

  predicate BlankLine(line: string) { Strip(line) == "" }

  /** The two label patterns, as predicates on lines. */
  datatype Labels = Labels(isCitation: string -> bool, isLabel: string -> bool)

  /** The citation pattern begins with a quotation mark; nothing else is used of the two. */
  ghost predicate Proper(labels: Labels) { forall line :: labels.isCitation(line) ==> Quoted(line) }

  /** The length of the leading run without stars. */
  function NonStars(s: string): (n: nat)
    ensures n <= |s|
  {
    if s != "" && s[0] != '*' then 1 + NonStars(s[1..]) else 0
  }

  /** `수업\s*지도안` somewhere in the text. */
  predicate NamesLessonPlan(s: string)
    decreases |s|
  {
    s != "" && (("수업" <= s && "지도안" <= LStrip(s[2..])) || NamesLessonPlan(s[1..]))
  }

  /** What follows the quotation mark and white space of a quoted line. */
  function QuotedText(line: string): string
    requires Quoted(line)
  {
    LStrip(LStrip(line)[1..])
  }

  /** A bold text right behind the quotation mark. */
  predicate OpensBold(line: string) {
    Quoted(line) && "**" <= QuotedText(line) && "**" <= QuotedText(line)[2..][NonStars(QuotedText(line)[2..])..]
  }

  function BoldText(line: string): string
    requires OpensBold(line)
  {
    QuotedText(line)[2..][..NonStars(QuotedText(line)[2..])]
  }

  /** `^\s*>\s*\*\*[^*]*수업\s*지도안[^*]*\*\*`. */
  predicate OpensCitation(line: string) { OpensBold(line) && NamesLessonPlan(BoldText(line)) }

  /** `^\s*>\s*\*\*[^*\n]+\*\*\s*:`. */
  predicate OpensLabel(line: string) {
    OpensBold(line) && BoldText(line) != "" && '\n' !in BoldText(line)
    && ":" <= LStrip(QuotedText(line)[|BoldText(line)| + 4..])
  }

  /** The patterns of the source. */
  function SourceLabels(): (labels: Labels)
    ensures Proper(labels)
  {
    Labels(line => OpensCitation(line), line => OpensLabel(line))
  }

  /** Line `j` opens a lesson-plan citation and every line up to `i` continues it. */
  predicate CitedFrom(labels: Labels, lines: seq<string>, j: nat, i: nat)
    requires j <= i < |lines|
  {
    labels.isCitation(lines[j])
    && forall k | j < k <= i :: labels.isCitation(lines[k]) || (Quoted(lines[k]) && !labels.isLabel(lines[k]))
  }

  /** Line `i` belongs to a citation of the lesson plan. */
  predicate Cited(labels: Labels, lines: seq<string>, i: nat)
    requires i < |lines|
  {
    exists j | 0 <= j <= i :: CitedFrom(labels, lines, j, i)
  }

  predicate Plain(labels: Labels, lines: seq<string>, i: nat)
    requires i < |lines|
  {
    !Cited(labels, lines, i) && !BlankLine(lines[i])
  }

  /** A piece of the output: a line as it was, or a paragraph cleaned as a whole. */
  datatype Piece = Verbatim(line: string) | Block(lines: seq<string>)

  function Source(p: Piece): seq<string> { if p.Verbatim? then [p.line] else p.lines }

  function Shown(p: Piece): string { if p.Verbatim? then p.line else StripEmojis(Join(p.lines)) }

  function Sources(pieces: seq<Piece>): seq<string> {
    if pieces == [] then [] else Sources(pieces[..|pieces| - 1]) + Source(pieces[|pieces| - 1])
  }

  function Texts(pieces: seq<Piece>): seq<string> {
    seq(|pieces|, i requires 0 <= i < |pieces| => Shown(pieces[i]))
  }

  /** Piece `k` starts at the line with this number. */
  function StartOf(pieces: seq<Piece>, k: nat): nat
    requires k <= |pieces|
  {
    |Sources(pieces[..k])|
  }

  /** What piece `k` may be: a citation line or an empty line alone, or plain lines together. */
  predicate Fits(labels: Labels, lines: seq<string>, pieces: seq<Piece>, k: nat)
    requires k < |pieces|
  {
    var at := StartOf(pieces, k);
    at + |Source(pieces[k])| <= |lines|
    && (if pieces[k].Verbatim? then !Plain(labels, lines, at)
        else pieces[k].lines != [] && forall i | at <= i < at + |pieces[k].lines| :: Plain(labels, lines, i))
  }

  /** The pieces are the lines in order, each line in a piece of its kind, and paragraphs
      as large as they can be. */
  predicate Partitions(labels: Labels, lines: seq<string>, pieces: seq<Piece>) {
    && Sources(pieces) == lines
    && (forall k | 0 <= k < |pieces| :: Fits(labels, lines, pieces, k))
    && (forall k | 0 < k < |pieces| :: pieces[k - 1].Block? ==> pieces[k].Verbatim?)
  }

  lemma CitedStep(labels: Labels, lines: seq<string>, i: nat)
    requires i < |lines|
    ensures Cited(labels, lines, i) <==>
            labels.isCitation(lines[i])
            || (i > 0 && Cited(labels, lines, i - 1) && Quoted(lines[i]) && !labels.isLabel(lines[i]))
  {
    if labels.isCitation(lines[i]) {
      assert CitedFrom(labels, lines, i, i);
    } else if i > 0 {
      if Cited(labels, lines, i - 1) && Quoted(lines[i]) && !labels.isLabel(lines[i]) {
        var j :| 0 <= j <= i - 1 && CitedFrom(labels, lines, j, i - 1);
        assert CitedFrom(labels, lines, j, i);
      }
      if Cited(labels, lines, i) {
        var j :| 0 <= j <= i && CitedFrom(labels, lines, j, i);
        assert CitedFrom(labels, lines, j, i - 1);
      }
    }
  }

  lemma SourcesAppend(pieces: seq<Piece>, p: Piece)
    ensures Sources(pieces + [p]) == Sources(pieces) + Source(p)
  {
    assert (pieces + [p])[..|pieces|] == pieces;
  }

  /** The pieces so far, every one in its place. */
  ghost predicate Laid(labels: Labels, lines: seq<string>, pieces: seq<Piece>, upTo: nat) {
    && upTo <= |lines| && Sources(pieces) == lines[..upTo]
    && (forall k | 0 <= k < |pieces| :: Fits(labels, lines, pieces, k))
    && (forall k | 0 < k < |pieces| :: pieces[k - 1].Block? ==> pieces[k].Verbatim?)
  }

  lemma LayOne(labels: Labels, lines: seq<string>, pieces: seq<Piece>, at: nat, p: Piece, upTo: nat)
    requires Laid(labels, lines, pieces, at)
    requires at <= upTo <= |lines| && Source(p) == lines[at..upTo]
    requires if p.Verbatim? then upTo == at + 1 && !Plain(labels, lines, at)
             else at < upTo && (forall i | at <= i < upTo :: Plain(labels, lines, i))
                  && (pieces == [] || pieces[|pieces| - 1].Verbatim?)
    ensures Laid(labels, lines, pieces + [p], upTo)
  {
    var all := pieces + [p];
    SourcesAppend(pieces, p);
    assert lines[..upTo] == lines[..at] + lines[at..upTo];
    forall k | 0 <= k < |all| ensures Fits(labels, lines, all, k) {
      assert all[..k] == pieces[..k];
      if k < |pieces| {
        assert Fits(labels, lines, pieces, k);
      } else {
        assert pieces[..k] == pieces;
      }
    }
  }

  predicate IsNewline(c: char) { c == '\n' }

  /** The loop's state before line `i`: the pieces so far, then a paragraph since line `at`. */
  ghost predicate Ready(labels: Labels, lines: seq<string>, pieces: seq<Piece>, at: nat, i: nat,
                        sanitized: seq<string>, buffer: seq<string>) {
    && Laid(labels, lines, pieces, at) && sanitized == Texts(pieces)
    && (pieces == [] || pieces[|pieces| - 1].Verbatim?)
    && at <= i <= |lines| && buffer == lines[at..i]
    && forall k | at <= k < i :: Plain(labels, lines, k)
  }

  lemma ReadyKeep(labels: Labels, lines: seq<string>, pieces: seq<Piece>, i: nat, sanitized: seq<string>)
    requires Laid(labels, lines, pieces, i) && sanitized == Texts(pieces)
    requires i < |lines| && !Plain(labels, lines, i)
    ensures Ready(labels, lines, pieces + [Verbatim(lines[i])], i + 1, i + 1, sanitized + [lines[i]], [])
  {
    LayOne(labels, lines, pieces, i, Verbatim(lines[i]), i + 1);
  }

  lemma ReadyBuffer(labels: Labels, lines: seq<string>, pieces: seq<Piece>, at: nat, i: nat, sanitized: seq<string>, buffer: seq<string>)
    requires Ready(labels, lines, pieces, at, i, sanitized, buffer) && i < |lines| && Plain(labels, lines, i)
    ensures Ready(labels, lines, pieces, at, i + 1, sanitized, buffer + [lines[i]])
  {
  }

  /** Right after a citation line no paragraph is open. */
  lemma ReadyEmpty(labels: Labels, lines: seq<string>, pieces: seq<Piece>, at: nat, i: nat, sanitized: seq<string>, buffer: seq<string>)
    requires Ready(labels, lines, pieces, at, i, sanitized, buffer) && i > 0 && Cited(labels, lines, i - 1)
    ensures at == i
  {
    assert at < i ==> Plain(labels, lines, i - 1);
  }

  /** `flush_buffer`: the paragraph collected since line `at` is cleaned as a whole. */
  method FlushBuffer(labels: Labels, ghost lines: seq<string>, ghost pieces: seq<Piece>, ghost at: nat, ghost i: nat,
                     sanitized: seq<string>, buffer: seq<string>)
    returns (flushed: seq<string>, ghost laid: seq<Piece>)
    requires Ready(labels, lines, pieces, at, i, sanitized, buffer)
    ensures Laid(labels, lines, laid, i) && flushed == Texts(laid)
  {
    flushed, laid := sanitized, pieces;
    if buffer != [] {
      LayOne(labels, lines, pieces, at, Block(buffer), i);
      flushed, laid := sanitized + [StripEmojis(Join(buffer))], pieces + [Block(buffer)];
    }
  }

  /** `_sanitize_report_lines`. */
  method SanitizeReportLines(labels: Labels, report: string) returns (output: string, ghost pieces: seq<Piece>)
    ensures Partitions(labels, Split(report, IsNewline), pieces)
    ensures output == Join(Texts(pieces))
  {
    var lines := Split(report, IsNewline);
    var sanitized: seq<string>, buffer: seq<string> := [], [];
    var inCitation := false;
    pieces := [];
    ghost var at: nat := 0;
    for i := 0 to |lines|
      invariant Ready(labels, lines, pieces, at, i, sanitized, buffer)
      invariant inCitation <==> i > 0 && Cited(labels, lines, i - 1)
    {
      var line := lines[i];
      CitedStep(labels, lines, i);
      if labels.isCitation(line) {
        sanitized, pieces := FlushBuffer(labels, lines, pieces, at, i, sanitized, buffer);
        ReadyKeep(labels, lines, pieces, i, sanitized);
        inCitation := true;
        sanitized, pieces, buffer, at := sanitized + [line], pieces + [Verbatim(line)], [], i + 1;
      } else if inCitation && Quoted(line) && !labels.isLabel(line) {
        ReadyEmpty(labels, lines, pieces, at, i, sanitized, buffer);
        ReadyKeep(labels, lines, pieces, i, sanitized);
        sanitized, pieces, at := sanitized + [line], pieces + [Verbatim(line)], i + 1;
      } else {
        inCitation := false;
        if BlankLine(line) {
          sanitized, pieces := FlushBuffer(labels, lines, pieces, at, i, sanitized, buffer);
          ReadyKeep(labels, lines, pieces, i, sanitized);
          sanitized, pieces, buffer, at := sanitized + [line], pieces + [Verbatim(line)], [], i + 1;
        } else {
          ReadyBuffer(labels, lines, pieces, at, i, sanitized, buffer);
          buffer := buffer + [line];
        }
      }
    }
    sanitized, pieces := FlushBuffer(labels, lines, pieces, at, |lines|, sanitized, buffer);
    assert lines[..|lines|] == lines;
    output := Join(sanitized);
  }

  // ---------------------------------------------------------- nothing is lost

  /** What can be seen of lines, one after the other. */
  function VisibleLines(lines: seq<string>): string {
    if lines == [] then ""
    else VisibleLines(lines[..|lines| - 1]) + Visible(lines[|lines| - 1])
  }

  lemma {:induction false} VisibleJoin(lines: seq<string>)
    ensures Visible(Join(lines)) == VisibleLines(lines)
  {
    if |lines| == 1 {
      assert lines[..0] == [];
    } else if lines != [] {
      var n := |lines| - 1;
      VisibleJoin(lines[..n]);
      VisibleAppend(Join(lines[..n]) + "\n", lines[n]);
      VisibleAppend(Join(lines[..n]), "\n");
      NothingVisible("\n");
    }
  }

  lemma {:induction false} VisibleLinesAppend(xs: seq<string>, ys: seq<string>)
    ensures VisibleLines(xs + ys) == VisibleLines(xs) + VisibleLines(ys)
    decreases |ys|
  {
    if ys == [] {
      assert xs + ys == xs;
    } else {
      var n := |ys| - 1;
      var rest, y := ys[..n], ys[n];
      VisibleLinesAppend(xs, rest);
      assert xs + ys == (xs + rest) + [y] && ys == rest + [y];
      VisibleLinesNext(xs + rest, y);
      VisibleLinesNext(rest, y);
      Regroup(VisibleLines(xs), VisibleLines(rest), Visible(y));
    }
  }

  lemma Regroup(a: string, b: string, c: string)
    ensures (a + b) + c == a + (b + c)
  {
  }

  lemma VisibleLinesNext(lines: seq<string>, line: string)
    ensures VisibleLines(lines + [line]) == VisibleLines(lines) + Visible(line)
  {
    assert (lines + [line])[..|lines|] == lines;
  }

  lemma PieceKeeps(p: Piece)
    ensures Visible(Shown(p)) == VisibleLines(Source(p))
  {
    if p.Verbatim? {
      assert [p.line][..0] == [];
    } else {
      StripEmojisKeeps(Join(p.lines));
      VisibleJoin(p.lines);
    }
  }

  lemma {:induction false} PiecesKeep(pieces: seq<Piece>)
    ensures VisibleLines(Texts(pieces)) == VisibleLines(Sources(pieces))
  {
    if pieces != [] {
      var n := |pieces| - 1;
      PiecesKeep(pieces[..n]);
      assert Texts(pieces)[..n] == Texts(pieces[..n]);
      PieceKeeps(pieces[n]);
      VisibleLinesAppend(Sources(pieces[..n]), Source(pieces[n]));
    }
  }

  /** Whatever the labels, the sanitized report shows all that the report showed besides
      emojis, in order. */
  lemma ReportKeeps(labels: Labels, report: string, pieces: seq<Piece>)
    requires Partitions(labels, Split(report, IsNewline), pieces)
    ensures Visible(Join(Texts(pieces))) == Visible(report)
  {
    VisibleJoin(Texts(pieces));
    PiecesKeep(pieces);
    VisibleJoin(Split(report, IsNewline));
    JoinSplit(report, IsNewline);
  }

  // ------------------------------------------------------------------ scanner

  datatype Finding = Finding(line: nat, column: nat, run: string)

  function EmojiRun(s: string): (n: nat)
    ensures n <= |s|
    ensures forall k | 0 <= k < n :: IsEmoji(s[k])
    ensures n < |s| ==> !IsEmoji(s[n])
  {
    if s != "" && IsEmoji(s[0]) then 1 + EmojiRun(s[1..]) else 0
  }

  /** The finding is a run of emojis of this line that reaches as far as it can. */
  predicate IsRun(no: nat, line: string, f: Finding) {
    var from, to := f.column - 1, f.column - 1 + |f.run|;
    && f.line == no && 0 <= from < to <= |line| && f.run == line[from..to]
    && (forall k | from <= k < to :: IsEmoji(line[k]))
    && (from > 0 ==> !IsEmoji(line[from - 1])) && (to < |line| ==> !IsEmoji(line[to]))
  }

  predicate Covers(f: Finding, i: nat) { f.column - 1 <= i < f.column - 1 + |f.run| }

  /** The findings of the first `i` characters. */
  ghost predicate FoundUpTo(no: nat, line: string, found: seq<Finding>, i: nat) {
    && i <= |line|
    && (forall f | f in found :: IsRun(no, line, f) && f.column - 1 + |f.run| <= i)
    && (forall k, m | 0 <= k < m < |found| :: found[k].column < found[m].column)
    && (forall k | 0 <= k < i && IsEmoji(line[k]) :: exists f | f in found :: Covers(f, k))
  }

  lemma FoundRun(no: nat, line: string, found: seq<Finding>, i: nat, n: nat)
    requires FoundUpTo(no, line, found, i) && 0 < n && i + n <= |line|
    requires i > 0 ==> !IsEmoji(line[i - 1])
    requires (forall k | i <= k < i + n :: IsEmoji(line[k])) && (i + n < |line| ==> !IsEmoji(line[i + n]))
    ensures FoundUpTo(no, line, found + [Finding(no, i + 1, line[i..i + n])], i + n)
  {
    var f := Finding(no, i + 1, line[i..i + n]);
    var more := found + [f];
    assert IsRun(no, line, f);
    assert f in more;
    forall k | 0 <= k < |found| ensures found[k].column < f.column {
      assert found[k] in found;
    }
    forall k | 0 <= k < i + n && IsEmoji(line[k]) ensures exists g | g in more :: Covers(g, k) {
      if k < i {
        var g :| g in found && Covers(g, k);
        assert g in more;
      } else {
        assert Covers(f, k);
      }
    }
  }

  lemma FoundNone(no: nat, line: string, found: seq<Finding>, i: nat)
    requires FoundUpTo(no, line, found, i) && i < |line| && !IsEmoji(line[i])
    ensures FoundUpTo(no, line, found, i + 1)
  {
  }

  /** The run at position `i`, in positions of the line. */
  lemma RunAt(line: string, i: nat)
    requires i < |line|
    ensures var n := EmojiRun(line[i..]);
      && i + n <= |line| && (forall k | i <= k < i + n :: IsEmoji(line[k]))
      && (i + n < |line| ==> !IsEmoji(line[i + n]))
  {
    var n := EmojiRun(line[i..]);
    forall k | i <= k < i + n ensures IsEmoji(line[k]) {
      assert line[k] == line[i..][k - i];
    }
    assert i + n < |line| ==> line[i + n] == line[i..][n];
  }

  /** Run after run, from left to right. */
  method FindRuns(no: nat, line: string) returns (found: seq<Finding>)
    ensures FoundUpTo(no, line, found, |line|)
  {
    found := [];
    var i := 0;
    while i < |line|
      invariant FoundUpTo(no, line, found, i)
      invariant 0 < i < |line| && IsEmoji(line[i]) ==> !IsEmoji(line[i - 1])
      decreases |line| - i
    {
      RunAt(line, i);
      var n := EmojiRun(line[i..]);
      if n > 0 {
        FoundRun(no, line, found, i, n);
        found := found + [Finding(no, i + 1, line[i..i + n])];
        i := i + n;
      } else {
        FoundNone(no, line, found, i);
        i := i + 1;
      }
    }
  }

  /** `_find_emojis_in_line`: from left to right every maximal run of emojis, with its
      column from 1; none exactly in a line without emojis. */
  method FindEmojis(no: nat, line: string) returns (found: seq<Finding>)
    ensures forall f | f in found :: IsRun(no, line, f)
    ensures forall k, m | 0 <= k < m < |found| :: found[k].column < found[m].column
    ensures forall k | 0 <= k < |line| && IsEmoji(line[k]) :: exists f | f in found :: Covers(f, k)
    ensures found == [] <==> NoEmoji(line)
  {
    found := FindRuns(no, line);
    NothingFound(no, line, found);
  }

  lemma NothingFound(no: nat, line: string, found: seq<Finding>)
    requires FoundUpTo(no, line, found, |line|)
    ensures found == [] <==> NoEmoji(line)
  {
    if found != [] {
      assert found[0] in found && IsRun(no, line, found[0]);
      assert IsEmoji(line[found[0].column - 1]);
    }
  }

  /** The scanner has nothing against this line. */
  predicate Fine(line: string) { Quoted(line) || NoEmoji(line) }

  predicate AllFine(lines: seq<string>) { forall line | line in lines :: Fine(line) }

  lemma AllFineMore(lines: seq<string>, line: string)
    ensures AllFine(lines + [line]) <==> AllFine(lines) && Fine(line)
  {
    assert line in lines + [line];
    if AllFine(lines + [line]) {
      forall x | x in lines ensures Fine(x) {
        assert x in lines + [line];
      }
    }
  }

  /** `_scan_report`: quoted lines are skipped. */
  method ScanReport(lines: seq<string>) returns (findings: seq<Finding>)
    ensures findings == [] <==> AllFine(lines)
  {
    findings := [];
    for i := 0 to |lines|
      invariant findings == [] <==> AllFine(lines[..i])
    {
      assert lines[..i + 1] == lines[..i] + [lines[i]];
      AllFineMore(lines[..i], lines[i]);
      if !Quoted(lines[i]) {
        var found := FindEmojis(i + 1, lines[i]);
        findings := findings + found;
      }
    }
    assert lines[..|lines|] == lines;
  }

  // ------------------------------------------------- sanitizer and scanner

  lemma {:induction false} SplitJoin(texts: seq<string>, isBreak: char -> bool, part: string)
    requires texts != [] && isBreak('\n')
    ensures part in Split(Join(texts), isBreak) <==> exists t | t in texts :: part in Split(t, isBreak)
  {
    var n := |texts| - 1;
    assert texts == texts[..n] + [texts[n]];
    if n > 0 {
      SplitJoin(texts[..n], isBreak, part);
      assert "\n" == ['\n'];
      SplitAppend(Join(texts[..n]), '\n', texts[n], isBreak);
    } else {
      assert texts[..n] == [];
    }
  }

  lemma CitedQuoted(labels: Labels, lines: seq<string>, i: nat)
    requires Proper(labels) && i < |lines| && Cited(labels, lines, i)
    ensures Quoted(lines[i])
  {
    CitedStep(labels, lines, i);
  }

  lemma {:induction false} LStripBlank(s: string)
    requires LStrip(s) == ""
    ensures forall c | c in s :: IsSpace(c)
  {
    if s != "" {
      assert s == [s[0]] + s[1..];
      LStripBlank(s[1..]);
    }
  }

  lemma {:induction false} RStripBlank(s: string)
    requires RStrip(s) == ""
    ensures forall c | c in s :: IsSpace(c)
  {
    if s != "" {
      assert s == s[..|s| - 1] + [s[|s| - 1]];
      RStripBlank(s[..|s| - 1]);
    }
  }

  lemma {:induction false} LStripVisible(s: string)
    requires forall c | c in LStrip(s) :: IsSpace(c)
    ensures LStrip(s) == ""
  {
    if s != "" {
      assert s[0] in s;
      if IsSpace(s[0]) {
        LStripVisible(s[1..]);
      }
    }
  }

  lemma BlankClean(line: string)
    requires BlankLine(line)
    ensures NoEmoji(line)
  {
    RStripBlank(LStrip(line));
    LStripVisible(line);
    LStripBlank(line);
  }

  lemma PartClean(text: string, isBreak: char -> bool, part: string)
    requires NoEmoji(text) && part in Split(text, isBreak)
    ensures NoEmoji(part)
  {
    SplitParts(text, isBreak, part);
  }

  /** Every citation line stands in a piece of its own, unchanged, in its place. */
  lemma CitationKept(labels: Labels, lines: seq<string>, pieces: seq<Piece>, i: nat)
    returns (k: nat)
    requires Partitions(labels, lines, pieces) && i < |lines| && Cited(labels, lines, i)
    ensures k < |pieces| && StartOf(pieces, k) == i && pieces[k] == Verbatim(lines[i]) && Texts(pieces)[k] == lines[i]
  {
    k := PieceAt(pieces, i);
    assert Fits(labels, lines, pieces, k);
    assert !Plain(labels, lines, i);
    SourceAt(pieces, k, i);
  }

  /** The piece that holds a line. */
  lemma {:induction false} PieceAt(pieces: seq<Piece>, i: nat) returns (k: nat)
    requires i < |Sources(pieces)|
    ensures k < |pieces| && StartOf(pieces, k) <= i < StartOf(pieces, k) + |Source(pieces[k])|
  {
    var n := |pieces| - 1;
    if i < |Sources(pieces[..n])| {
      k := PieceAt(pieces[..n], i);
      assert pieces[..n][..k] == pieces[..k];
    } else {
      k := n;
    }
  }

  lemma {:induction false} SourceAt(pieces: seq<Piece>, k: nat, i: nat)
    requires k < |pieces| && StartOf(pieces, k) <= i < StartOf(pieces, k) + |Source(pieces[k])|
    ensures i < |Sources(pieces)| && Sources(pieces)[i] == Source(pieces[k])[i - StartOf(pieces, k)]
  {
    var n := |pieces| - 1;
    if k < n {
      assert pieces[..n][..k] == pieces[..k];
      SourceAt(pieces[..n], k, i);
    } else {
      assert pieces[..k] == pieces[..n];
    }
  }

  /** Citation lines keep their order. */
  lemma CitationsInOrder(labels: Labels, lines: seq<string>, pieces: seq<Piece>, i: nat, j: nat) returns (k: nat, m: nat)
    requires Partitions(labels, lines, pieces) && i < j < |lines| && Cited(labels, lines, i) && Cited(labels, lines, j)
    ensures k < m < |pieces| && Texts(pieces)[k] == lines[i] && Texts(pieces)[m] == lines[j]
  {
    k := CitationKept(labels, lines, pieces, i);
    m := CitationKept(labels, lines, pieces, j);
    if m <= k {
      StartsGrow(pieces, m, k);
    }
  }

  lemma {:induction false} StartsGrow(pieces: seq<Piece>, m: nat, k: nat)
    requires m <= k <= |pieces|
    ensures StartOf(pieces, m) <= StartOf(pieces, k)
  {
    if m < k {
      assert pieces[..k][..k - 1] == pieces[..k - 1];
      StartsGrow(pieces, m, k - 1);
    }
  }

  /** A piece other than a citation line holds nothing the scanner minds, however it is split. */
  lemma PieceFine(labels: Labels, lines: seq<string>, pieces: seq<Piece>, k: nat, isBreak: char -> bool, part: string)
    requires Partitions(labels, lines, pieces) && k < |pieces| && part in Split(Shown(pieces[k]), isBreak)
    requires StartOf(pieces, k) < |lines| && !Cited(labels, lines, StartOf(pieces, k))
    ensures NoEmoji(part)
  {
    var p := pieces[k];
    assert Fits(labels, lines, pieces, k);
    if p.Verbatim? {
      SourceAt(pieces, k, StartOf(pieces, k));
      BlankClean(p.line);
    } else {
      StripEmojisClean(Join(p.lines));
    }
    PartClean(Shown(p), isBreak, part);
  }

  /** However the output is cut into lines, as long as it is cut at `\n`, the scanner finds
      nothing in it exactly when it finds nothing in the citation lines cut the same way. */
  lemma OutputFine(labels: Labels, lines: seq<string>, pieces: seq<Piece>, isBreak: char -> bool)
    requires Proper(labels) && Partitions(labels, lines, pieces) && lines != [] && isBreak('\n')
    ensures AllFine(Split(Join(Texts(pieces)), isBreak)) <==>
            forall i | 0 <= i < |lines| && Cited(labels, lines, i) :: AllFine(Split(lines[i], isBreak))
  {
    assert pieces != [];
    if AllFine(Split(Join(Texts(pieces)), isBreak)) {
      forall i | 0 <= i < |lines| && Cited(labels, lines, i) ensures AllFine(Split(lines[i], isBreak)) {
        var k := CitationKept(labels, lines, pieces, i);
        assert lines[i] in Texts(pieces);
        forall part | part in Split(lines[i], isBreak) ensures Fine(part) {
          SplitJoin(Texts(pieces), isBreak, part);
        }
      }
    }
    if forall i | 0 <= i < |lines| && Cited(labels, lines, i) :: AllFine(Split(lines[i], isBreak)) {
      forall part | part in Split(Join(Texts(pieces)), isBreak) ensures Fine(part) {
        SplitJoin(Texts(pieces), isBreak, part);
        var t :| t in Texts(pieces) && part in Split(t, isBreak);
        var k :| 0 <= k < |pieces| && Texts(pieces)[k] == t;
        PartFine(labels, lines, pieces, k, isBreak, part);
      }
    }
  }

  lemma PartFine(labels: Labels, lines: seq<string>, pieces: seq<Piece>, k: nat, isBreak: char -> bool, part: string)
    requires Partitions(labels, lines, pieces) && k < |pieces| && part in Split(Shown(pieces[k]), isBreak)
    requires forall i | 0 <= i < |lines| && Cited(labels, lines, i) :: AllFine(Split(lines[i], isBreak))
    ensures Fine(part)
  {
    var at := StartOf(pieces, k);
    assert Fits(labels, lines, pieces, k);
    assert pieces[k].Block? ==> Plain(labels, lines, at);
    SourceAt(pieces, k, at);
    if Cited(labels, lines, at) {
      assert pieces[k].Verbatim?;
      assert lines[at] == pieces[k].line;
    } else {
      PieceFine(labels, lines, pieces, k, isBreak, part);
    }
  }

  /** Split at `\n`, the output of the sanitizer gives the report scanner no findings,
      whatever the mix of citations, labels, empty lines and bold spans over several lines. */
  lemma ScannerAgrees(labels: Labels, report: string, pieces: seq<Piece>)
    requires Proper(labels) && Partitions(labels, Split(report, IsNewline), pieces)
    ensures AllFine(Split(Join(Texts(pieces)), IsNewline))
  {
    var lines := Split(report, IsNewline);
    forall i | 0 <= i < |lines| && Cited(labels, lines, i) ensures AllFine(Split(lines[i], IsNewline)) {
      assert lines[i] in lines;
      SplitParts(report, IsNewline, lines[i]);
      SplitWhole(lines[i], IsNewline);
      CitedQuoted(labels, lines, i);
    }
    OutputFine(labels, lines, pieces, IsNewline);
  }

  /** The line ends of `splitlines`, which the scanner's command line uses. */
  predicate IsLineEnd(c: char) {
    '\n' <= c <= '\r' || '\U{1c}' <= c <= '\U{1e}' || c == '\U{85}' || c == '\U{2028}' || c == '\U{2029}'
  }

  const BAD_LABEL := "> **수업 지도안**: x"

  lemma {:induction false} NonStarsIs(a: string, b: string)
    requires '*' !in a && b != "" && b[0] == '*'
    ensures NonStars(a + b) == |a|
  {
    if a == "" {
      assert a + b == b;
    } else {
      assert a[0] in a;
      assert (a + b)[1..] == a[1..] + b;
      NonStarsIs(a[1..], b);
    }
  }

  lemma LStripVisibleText(s: string)
    requires s != "" && !IsSpace(s[0])
    ensures LStrip(s) == s && LStrip(" " + s) == s
  {
    assert (" " + s)[1..] == s;
  }

  /** A line with a bold text behind the quotation mark: what the two patterns make of it. */
  lemma LabelMeans(name: string, rest: string)
    requires '*' !in name
    ensures var line := "> " + ("**" + (name + ("**" + rest)));
      && Quoted(line)
      && (OpensCitation(line) <==> NamesLessonPlan(name))
      && (OpensLabel(line) <==> name != "" && '\n' !in name && ":" <= LStrip(rest))
  {
    var bold := "**" + (name + ("**" + rest));
    var line := "> " + bold;
    LStripVisibleText(line);
    assert line[1..] == " " + bold;
    LStripVisibleText(bold);
    assert QuotedText(line) == bold;
    assert bold[2..] == name + ("**" + rest);
    NonStarsIs(name, "**" + rest);
    assert (name + ("**" + rest))[|name|..] == "**" + rest;
    assert BoldText(line) == name;
    assert bold[|name| + 4..] == rest;
  }

  /** The name of the lesson plan stands there, its two words with white space or nothing
      between them. */
  predicate NamesAt(s: string, i: nat, j: nat) {
    && i + 2 <= j && j + 3 <= |s|
    && s[i..i + 2] == "수업" && AllSpace(s[i + 2..j]) && s[j..j + 3] == "지도안"
  }

  lemma {:induction false} StripsTo(t: string, j: nat)
    requires j + 3 <= |t| && AllSpace(t[..j]) && t[j..j + 3] == "지도안"
    ensures "지도안" <= LStrip(t)
  {
    if j > 0 {
      assert IsSpace(t[..j][0]);
      assert t[1..][..j - 1] == t[..j][1..] && t[1..][j - 1..j - 1 + 3] == t[j..j + 3];
      StripsTo(t[1..], j - 1);
    } else {
      assert t[..3] == "지도안";
      assert t[0] == "지도안"[0];
    }
  }

  lemma {:induction false} StrippedAt(t: string) returns (j: nat)
    requires "지도안" <= LStrip(t)
    ensures j + 3 <= |t| && AllSpace(t[..j]) && t[j..j + 3] == "지도안"
  {
    j := 0;
    if t != "" && IsSpace(t[0]) {
      j := StrippedAt(t[1..]);
      assert t[..j + 1] == [t[0]] + t[1..][..j] && t[j + 1..j + 4] == t[1..][j..j + 3];
      j := j + 1;
    }
  }

  lemma TailSlice(s: string, n: nat, i: nat, j: nat)
    requires n + j <= |s| && i <= j
    ensures s[n..][i..j] == s[n + i..n + j]
  {
  }

  /** The name stands at the very start. */
  lemma NamedHere(s: string) returns (j: nat)
    requires "수업" <= s && "지도안" <= LStrip(s[2..])
    ensures NamesAt(s, 0, j)
  {
    j := StrippedAt(s[2..]);
    TailSlice(s, 2, 0, j);
    TailSlice(s, 2, j, j + 3);
    j := j + 2;
  }

  lemma {:induction false} NamesFound(s: string) returns (i: nat, j: nat)
    requires NamesLessonPlan(s)
    ensures NamesAt(s, i, j)
    decreases |s|
  {
    if "수업" <= s && "지도안" <= LStrip(s[2..]) {
      i := 0;
      j := NamedHere(s);
    } else {
      i, j := NamesFound(s[1..]);
      NamesShift(s, i, j);
      i, j := i + 1, j + 1;
    }
  }

  lemma {:induction false} NamesSeen(s: string, i: nat, j: nat)
    requires NamesAt(s, i, j)
    ensures NamesLessonPlan(s)
    decreases |s|
  {
    if i > 0 {
      NamesShift(s, i - 1, j - 1);
      NamesSeen(s[1..], i - 1, j - 1);
    } else {
      TailSlice(s, 2, 0, j - 2);
      TailSlice(s, 2, j - 2, j + 1);
      StripsTo(s[2..], j - 2);
      assert s[..2] == "수업";
    }
  }

  lemma NamesMean(s: string)
    ensures NamesLessonPlan(s) <==> exists i: nat, j: nat :: NamesAt(s, i, j)
  {
    if NamesLessonPlan(s) {
      var i, j := NamesFound(s);
    }
    if i: nat, j: nat :| NamesAt(s, i, j) {
      NamesSeen(s, i, j);
    }
  }

  lemma NamesShift(s: string, i: nat, j: nat)
    requires s != ""
    ensures NamesAt(s[1..], i, j) <==> NamesAt(s, i + 1, j + 1)
  {
    if i + 2 <= j && j + 3 <= |s| - 1 {
      assert s[1..][i..i + 2] == s[i + 1..i + 3];
      assert s[1..][i + 2..j] == s[i + 3..j + 1];
      assert s[1..][j..j + 3] == s[j + 1..j + 4];
    }
  }

  lemma NamesParts(a: string, b: string, c: string)
    ensures var s := a + (b + c);
      && s[0..|a|] == a && s[|a|..|a| + |b|] == b && s[|a| + |b|..|a| + |b| + |c|] == c
  {
  }

  /** A line with the source's label is a citation, whatever follows the label. */
  lemma LabelCites(rest: string)
    ensures OpensCitation("> " + ("**" + ("수업 지도안" + ("**" + rest))))
  {
    var name := "수업 지도안";
    assert forall k | 0 <= k < |name| :: name[k] != '*';
    LabelMeans(name, rest);
    assert name == "수업" + (" " + "지도안");
    NamesParts("수업", " ", "지도안");
    NamesMean(name);
    assert NamesAt(name, 0, 3);
  }

  lemma CheckMark()
    ensures !Fine(['\U{2705}'])
  {
    assert ['\U{2705}'][0] == '\U{2705}' && IsEmoji('\U{2705}');
    assert '\U{2705}' in ['\U{2705}'];
  }

  function BadReport(): string { BAD_LABEL + ['\U{2028}'] + ['\U{2705}'] }

  lemma BadLabelPlain()
    ensures forall c | c in BAD_LABEL :: !IsLineEnd(c) && !IsNewline(c)
    ensures BAD_LABEL == "> " + ("**" + ("수업 지도안" + ("**" + ": x")))
  {
  }

  lemma BadReportCited()
    ensures OpensCitation(BadReport())
  {
    var rest := ": x" + ['\U{2028}'] + ['\U{2705}'];
    BadLabelPlain();
    assert BadReport() == "> " + ("**" + ("수업 지도안" + ("**" + rest)));
    LabelCites(rest);
  }

  lemma BadReportLines()
    ensures Split(BadReport(), IsNewline) == [BadReport()]
    ensures !AllFine(Split(BadReport(), IsLineEnd))
  {
    BadLabelPlain();
    forall c | c in BadReport() ensures !IsNewline(c) {
      assert c in BAD_LABEL || c == '\U{2028}' || c == '\U{2705}';
    }
    SplitWhole(BadReport(), IsNewline);
    SplitWhole(['\U{2705}'], IsLineEnd);
    SplitAppend(BAD_LABEL, '\U{2028}', ['\U{2705}'], IsLineEnd);
    CheckMark();
    assert Split(BadReport(), IsLineEnd)[|Split(BadReport(), IsLineEnd)| - 1] == ['\U{2705}'];
  }

  /** There it can fail: a report of one citation line that holds a line separator and an
      emoji behind it is kept verbatim, and its second half is no longer quoted. */
  lemma SeparatorInCitation(pieces: seq<Piece>)
    requires Partitions(SourceLabels(), Split(BadReport(), IsNewline), pieces)
    ensures !AllFine(Split(Join(Texts(pieces)), IsLineEnd))
  {
    BadReportLines();
    BadReportCited();
    assert CitedFrom(SourceLabels(), [BadReport()], 0, 0);
    OutputFine(SourceLabels(), [BadReport()], pieces, IsLineEnd);
  }

  /** With the source's patterns, then, a sanitized report is clean line by line. */
  lemma SourceReportFine(report: string, pieces: seq<Piece>)
    requires Partitions(SourceLabels(), Split(report, IsNewline), pieces)
    ensures AllFine(Split(Join(Texts(pieces)), IsNewline))
  {
    ScannerAgrees(SourceLabels(), report, pieces);
  }
}
