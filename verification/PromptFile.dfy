/** The prompt file: printing the ordered map of prompts, and reading it back. */
module PromptFile {
  import opened Wrappers
  import opened Text

  datatype Prompt = Prompt(key: string, content: string)

  // ---------------------------------------------------------------- printing

  const TITLE := "# 시스템 프롬프트"
  const NOTE := "이 파일은 시스템에서 사용하는 프롬프트를 정의합니다."
  const RULE := "---"

  function Lines(prompts: seq<Prompt>): (lines: seq<string>)
    ensures |lines| > 0
  {
    if prompts == [] then [TITLE, "", NOTE, "", RULE]
    else
      var p := prompts[|prompts| - 1];
      Lines(prompts[..|prompts| - 1]) + ["", "## " + p.key, "", p.content, "", RULE]
  }

  function Rendered(prompts: seq<Prompt>): string { Join(Lines(prompts)) + "\n" }

  /** The text of `_save_prompts`. */
  method Render(prompts: seq<Prompt>) returns (output: string)
    ensures output == Rendered(prompts)
  {
    var lines := [TITLE, "", NOTE, "", RULE];
    for i := 0 to |prompts|
      invariant lines == Lines(prompts[..i])
    {
      assert prompts[..i + 1][..i] == prompts[..i];
      lines := lines + ["", "## " + prompts[i].key, "", prompts[i].content, "", RULE];
    }
    assert prompts[..|prompts|] == prompts;
    output := Join(lines) + "\n";
  }

  /** What follows the header or a content: the rule, then the remaining prompts. */
  function Tail(prompts: seq<Prompt>): string {
    if prompts == [] then "\n---\n"
    else "\n---\n" + ("\n## " + prompts[0].key + "\n\n" + (prompts[0].content + ("\n" + Tail(prompts[1..]))))
  }

  function Header(): string { TITLE + "\n\n" + NOTE }

  lemma {:induction false} TailAppend(prompts: seq<Prompt>, p: Prompt)
    ensures Tail(prompts + [p]) == Tail(prompts) + ("\n## " + p.key + "\n\n" + p.content + "\n" + "\n---\n")
    decreases |prompts|
  {
    if prompts == [] {
      assert prompts + [p] == [p];
      assert [p][1..] == [];
      assert Tail([]) == "\n---\n";
    } else {
      assert (prompts + [p])[1..] == prompts[1..] + [p];
      TailAppend(prompts[1..], p);
    }
  }

  lemma JoinBlock(p: Prompt)
    ensures Join(["", "## " + p.key, "", p.content, "", RULE]) == "\n## " + p.key + "\n\n" + p.content + "\n\n---"
  {
    var l := ["", "## " + p.key, "", p.content, "", RULE];
    assert l[..5][..4] == l[..4] && l[..4][..3] == l[..3] && l[..3][..2] == l[..2] && l[..2][..1] == [""];
    assert Join(l[..2]) == "\n## " + p.key;
    assert Join(l[..3]) == "\n## " + p.key + "\n";
    assert Join(l[..4]) == "\n## " + p.key + "\n\n" + p.content;
    assert Join(l[..5]) == "\n## " + p.key + "\n\n" + p.content + "\n";
  }

  lemma JoinHead()
    ensures Join([TITLE, "", NOTE, "", RULE]) + "\n" == Header() + "\n" + "\n---\n"
  {
    var l := [TITLE, "", NOTE, "", RULE];
    assert l[..4][..3] == l[..3] && l[..3][..2] == l[..2] && l[..2][..1] == [TITLE];
    assert Join(l[..2]) == TITLE + "\n";
    assert Join(l[..3]) == TITLE + "\n" + "\n" + NOTE;
    assert Join(l[..4]) == TITLE + "\n" + "\n" + NOTE + "\n";
  }

  /** The file is the header, then the prompts one after the other. */
  lemma {:induction false} RenderedIs(prompts: seq<Prompt>)
    ensures Rendered(prompts) == Header() + "\n" + Tail(prompts)
  {
    if prompts == [] {
      JoinHead();
    } else {
      var n := |prompts| - 1;
      var p, before := prompts[n], Join(Lines(prompts[..n]));
      RenderedIs(prompts[..n]);
      JoinAppend(Lines(prompts[..n]), ["", "## " + p.key, "", p.content, "", RULE]);
      JoinBlock(p);
      assert prompts == prompts[..n] + [p];
      TailAppend(prompts[..n], p);
      RenderedStep(before, p, Tail(prompts[..n]));
    }
  }

  lemma RenderedStep(before: string, p: Prompt, tail: string)
    requires before + "\n" == Header() + "\n" + tail
    ensures before + "\n" + ("\n## " + p.key + "\n\n" + p.content + "\n\n---") + "\n"
            == Header() + "\n" + (tail + ("\n## " + p.key + "\n\n" + p.content + "\n" + "\n---\n"))
  {
    var block := "\n## " + p.key + "\n\n" + p.content;
    assert block + "\n\n---" + "\n" == block + "\n" + "\n---\n";
  }

  // ----------------------------------------------------------------- reading

  /** What opening the file in text mode makes of the line ends. */
  function Unified(s: string): string {
    if s == "" then ""
    else if s[0] == '\r' then
      if |s| > 1 && s[1] == '\n' then ['\n'] + Unified(s[2..]) else ['\n'] + Unified(s[1..])
    else [s[0]] + Unified(s[1..])
  }

  lemma {:induction false} UnifiedSame(s: string)
    requires '\r' !in s
    ensures Unified(s) == s
  {
    if s != "" {
      assert s == [s[0]] + s[1..];
      UnifiedSame(s[1..]);
    }
  }

  /** A carriage return, with the line feed behind it if there is one, reads as one line feed. */
  lemma {:induction false} UnifiedBreaks(before: string, after: string)
    requires '\r' !in before
    ensures Unified(before + ("\r\n" + after)) == before + ("\n" + Unified(after))
    ensures !("\n" <= after) ==> Unified(before + ("\r" + after)) == before + ("\n" + Unified(after))
  {
    if before == "" {
      assert before + ("\r\n" + after) == "\r\n" + after && ("\r\n" + after)[2..] == after;
      assert before + ("\r" + after) == "\r" + after && ("\r" + after)[1..] == after;
      assert before + ("\n" + Unified(after)) == ['\n'] + Unified(after);
      assert |after| > 0 && after[0] == '\n' ==> "\n" <= after;
    } else {
      assert (before + ("\r\n" + after))[1..] == before[1..] + ("\r\n" + after);
      assert (before + ("\r" + after))[1..] == before[1..] + ("\r" + after);
      assert before + ("\n" + Unified(after)) == [before[0]] + (before[1..] + ("\n" + Unified(after)));
      UnifiedBreaks(before[1..], after);
    }
  }

  /** The length of the leading white space. */
  function Spaces(s: string): (n: nat)
    ensures n <= |s|
  {
    if s != "" && IsSpace(s[0]) then 1 + Spaces(s[1..]) else 0
  }

  /** The length of the leading word. */
  function WordLength(s: string): (n: nat)
    ensures n <= |s|
  {
    if s != "" && !IsSpace(s[0]) then 1 + WordLength(s[1..]) else 0
  }

  /** The place behind the last line break, 0 if there is none. */
  function LastBreak(s: string): (n: nat)
    ensures n <= |s|
  {
    if s == "" then 0 else if s[|s| - 1] == '\n' then |s| else LastBreak(s[..|s| - 1])
  }

  datatype Head = Head(key: string, rest: string)

  /** A match of the separator pattern at the start of `s`: the rule, white space up to a
      line start, `## `, one word, white space through its last line break. */
  function MatchHere(s: string): (head: Option<Head>)
    ensures head.Some? ==> |head.value.rest| < |s|
  {
    if "\n---" <= s then AfterRule(s[4..]) else None
  }

  function AfterRule(w: string): (head: Option<Head>)
    ensures head.Some? ==> |head.value.rest| < |w|
  {
    var n := Spaces(w);
    if n > 0 && w[n - 1] == '\n' then AfterBlank(w[n..]) else None
  }

  function AfterBlank(v: string): (head: Option<Head>)
    ensures head.Some? ==> |head.value.rest| < |v|
  {
    if "## " <= v then AfterHashes(v[3..]) else None
  }

  function AfterHashes(r: string): (head: Option<Head>)
    ensures head.Some? ==> |head.value.rest| < |r|
  {
    var k := WordLength(r);
    var b := LineEnd(r[k..]);
    if k == 0 || b == 0 then None else Some(Head(r[..k], r[k..][b..]))
  }

  /** The place behind the last line break of the leading white space, 0 if none. */
  function LineEnd(s: string): (b: nat)
    ensures b <= |s|
  {
    LastBreak(s[..Spaces(s)])
  }

  datatype Found = Found(before: string, head: Option<Head>)

  /** The leftmost match and the text before it. */
  function Find(s: string): (f: Found)
    ensures f.head.Some? ==> |f.head.value.rest| < |s|
  {
    if s == "" then Found("", None)
    else if MatchHere(s).Some? then Found("", MatchHere(s))
    else
      var f := Find(s[1..]);
      Found([s[0]] + f.before, f.head)
  }

  /** The sections from the one with this key on: key and text up to the next match. */
  function Sections(key: string, s: string): seq<Prompt>
    decreases |s|
  {
    var f := Find(s);
    [Prompt(key, f.before)] + (if f.head.Some? then Sections(f.head.value.key, f.head.value.rest) else [])
  }

  function AllSections(text: string): seq<Prompt> {
    var f := Find(text);
    if f.head.Some? then Sections(f.head.value.key, f.head.value.rest) else []
  }

  predicate EndsWith(s: string, part: string) { |part| <= |s| && s[|s| - |part|..] == part }

  /** A section's content: stripped, the closing rule taken off. */
  function Tidy(region: string): string {
    var c := Strip(region);
    if EndsWith(c, "\n---") then Strip(c[..|c| - 4])
    else if EndsWith(c, "---") then Strip(c[..|c| - 3])
    else c
  }

  /** `prompts[key] = content` on an ordered map. */
  function Assign(prompts: seq<Prompt>, p: Prompt): seq<Prompt> {
    if prompts == [] then [p]
    else if prompts[0].key == p.key then [p] + prompts[1..]
    else [prompts[0]] + Assign(prompts[1..], p)
  }

  function Assigned(sections: seq<Prompt>): seq<Prompt> {
    if sections == [] then []
    else
      var n := |sections| - 1;
      var content := Tidy(sections[n].content);
      if sections[n].key != "" && content != "" then Assign(Assigned(sections[..n]), Prompt(sections[n].key, content))
      else Assigned(sections[..n])
  }

  /** What a file with this text means. */
  function Extracted(text: string): seq<Prompt> { Assigned(AllSections(text)) }

  method TidyUp(region: string) returns (content: string)
    ensures content == Tidy(region)
  {
    content := Strip(region);
    if EndsWith(content, "\n---") {
      content := Strip(content[..|content| - 4]);
    } else if EndsWith(content, "---") {
      content := Strip(content[..|content| - 3]);
    }
  }

  /** The loop over the matches. */
  method AssignAll(sections: seq<Prompt>) returns (prompts: seq<Prompt>)
    ensures prompts == Assigned(sections)
  {
    prompts := [];
    for i := 0 to |sections|
      invariant prompts == Assigned(sections[..i])
    {
      assert sections[..i + 1][..i] == sections[..i];
      var content := TidyUp(sections[i].content);
      if sections[i].key != "" && content != "" {
        prompts := Assign(prompts, Prompt(sections[i].key, content));
      }
    }
    assert sections[..|sections|] == sections;
  }

  /** `_extract_prompt`. */
  method Extract(text: string) returns (prompts: seq<Prompt>)
    ensures prompts == Extracted(text)
  {
    var sections := AllSections(text);
    prompts := AssignAll(sections);
  }

  // ------------------------------------------------------------ local matches

  lemma {:induction false} SpacesThrough(s: string, tail: string)
    ensures Spaces(s) < |s| ==> Spaces(s + tail) == Spaces(s)
    ensures Spaces(s) == |s| ==> Spaces(s + tail) == |s| + Spaces(tail)
  {
    if s == "" {
      assert s + tail == tail;
    } else {
      assert (s + tail)[1..] == s[1..] + tail;
      SpacesThrough(s[1..], tail);
    }
  }

  lemma {:induction false} WordThrough(s: string, tail: string)
    ensures WordLength(s) < |s| ==> WordLength(s + tail) == WordLength(s)
    ensures WordLength(s) == |s| ==> WordLength(s + tail) == |s| + WordLength(tail)
  {
    if s == "" {
      assert s + tail == tail;
    } else {
      assert (s + tail)[1..] == s[1..] + tail;
      WordThrough(s[1..], tail);
    }
  }

  lemma {:induction false} SpacesShort(s: string)
    requires s != "" && !IsSpace(s[|s| - 1])
    ensures Spaces(s) < |s| && !IsSpace(s[Spaces(s)])
  {
    if IsSpace(s[0]) {
      SpacesShort(s[1..]);
    }
  }

  /** The text ends in no space, and a line break follows it. */
  predicate Edge(s: string, tail: string) {
    s != "" && !IsSpace(s[|s| - 1]) && tail != "" && tail[0] == '\n'
  }

  lemma {:induction false} LastBreakFirst(s: string)
    requires s != "" && s[0] == '\n'
    ensures LastBreak(s) > 0
  {
    if s[|s| - 1] != '\n' {
      LastBreakFirst(s[..|s| - 1]);
    }
  }

  lemma LineEndLocal(s: string, tail: string)
    requires Edge(s, tail)
    ensures LineEnd(s + tail) == LineEnd(s)
  {
    SpacesThrough(s, tail);
    SpacesShort(s);
    assert (s + tail)[..Spaces(s)] == s[..Spaces(s)];
  }

  lemma LineEndBreak(tail: string)
    requires tail != "" && tail[0] == '\n'
    ensures LineEnd(tail) > 0
  {
    LastBreakFirst(tail[..Spaces(tail)]);
  }

  /** One word, then the end of the text or of the line. */
  predicate ClosesWord(r: string) {
    var k := WordLength(r);
    k > 0 && (k == |r| || LineEnd(r[k..]) > 0)
  }

  predicate ClosesHashes(v: string) { "## " <= v && ClosesWord(v[3..]) }

  predicate ClosesBlank(w: string) {
    var n := Spaces(w);
    n > 0 && w[n - 1] == '\n' && ClosesHashes(w[n..])
  }

  /** A separator stands at the start of the text, its line ending here at the latest. */
  predicate Separates(u: string) { "\n---" <= u && ClosesBlank(u[4..]) }

  lemma WordLocal(r: string, tail: string)
    requires r != "" ==> Edge(r, tail)
    requires tail != "" && tail[0] == '\n'
    ensures AfterHashes(r + tail).Some? <==> ClosesWord(r)
  {
    WordThrough(r, tail);
    var k := WordLength(r);
    if k < |r| {
      assert (r + tail)[k..] == r[k..] + tail;
      LineEndLocal(r[k..], tail);
    } else {
      assert WordLength(tail) == 0;
      assert (r + tail)[k..] == tail;
      LineEndBreak(tail);
    }
  }

  lemma PrefixAt(part: string, s: string, i: nat)
    ensures part <= s && i < |part| ==> i < |s| && s[i] == part[i]
  {
  }

  lemma HashesLocal(v: string, tail: string)
    requires Edge(v, tail)
    ensures AfterBlank(v + tail).Some? <==> ClosesHashes(v)
  {
    assert (v + tail)[|v|] == '\n';
    PrefixAt("## ", v + tail, |v|);
    if |v| >= 3 {
      assert (v + tail)[..3] == v[..3];
      assert (v + tail)[3..] == v[3..] + tail;
      if "## " <= v {
        WordLocal(v[3..], tail);
      }
    }
  }

  lemma AfterRuleIs(w: string, tail: string, n: nat)
    requires n == Spaces(w + tail) && n <= |w|
    ensures AfterRule(w + tail) == if n > 0 && w[n - 1] == '\n' then AfterBlank(w[n..] + tail) else None
  {
    assert (w + tail)[n..] == w[n..] + tail;
    assert n > 0 ==> (w + tail)[n - 1] == w[n - 1];
  }

  lemma BlankLocal(w: string, tail: string)
    requires Edge(w, tail)
    ensures AfterRule(w + tail).Some? <==> ClosesBlank(w)
  {
    var n := Spaces(w);
    SpacesThrough(w, tail);
    SpacesShort(w);
    AfterRuleIs(w, tail, n);
    EdgeKept(w, tail, n);
    HashesLocal(w[n..], tail);
  }

  lemma EdgeKept(w: string, tail: string, n: nat)
    requires Edge(w, tail) && n < |w|
    ensures Edge(w[n..], tail)
  {
  }

  /** What may follow a content in the file: a line break, and nothing or the next rule. */
  predicate Follows(tail: string) {
    tail == "\n" || (|tail| > 2 && tail[0] == '\n' && tail[1] == '\n' && tail[2] == '-')
  }

  lemma NoHead(tail: string)
    requires Follows(tail)
    ensures AfterRule(tail).None?
  {
    if |tail| > 2 {
      assert tail[1..][1..] == tail[2..];
      assert Spaces(tail[2..]) == 0;
      assert Spaces(tail[1..]) == 1;
      assert Spaces(tail) == 2;
      assert tail[2..][0] == '-';
    } else {
      assert tail[1..] == "";
      assert Spaces(tail) == 1;
      assert tail[1..] == "";
    }
  }

  /** Whether the pattern matches at the start of a stretch of content is decided within
      the content, whatever follows it in the file. */
  lemma MatchLocal(u: string, tail: string)
    requires Edge(u, tail) && Follows(tail)
    ensures MatchHere(u + tail).Some? <==> Separates(u)
  {
    assert (u + tail)[|u|] == '\n';
    PrefixAt("\n---", u + tail, |u|);
    if |u| >= 4 {
      assert (u + tail)[..4] == u[..4];
      assert (u + tail)[4..] == u[4..] + tail;
      if "\n---" <= u {
        if u[4..] == "" {
          assert u[4..] + tail == tail;
          NoHead(tail);
          assert Spaces("") == 0;
        } else {
          BlankLocal(u[4..], tail);
        }
      }
    }
  }

  // -------------------------------------------------------------- round trip

  /** No separator begins anywhere in the content. */
  predicate NoSeparator(c: string) {
    c == "" || (!Separates(c) && NoSeparator(c[1..]))
  }

  predicate IsWord(key: string) {
    key != "" && forall i | 0 <= i < |key| :: !IsSpace(key[i])
  }

  lemma FindStep(c: string, tail: string)
    requires c != "" && MatchHere(c + tail).None?
    ensures Find(c + tail) == Found([c[0]] + Find(c[1..] + tail).before, Find(c[1..] + tail).head)
  {
    assert (c + tail)[1..] == c[1..] + tail;
  }

  lemma FirstBack(c: string, more: string)
    requires c != ""
    ensures [c[0]] + (c[1..] + more) == c + more
  {
  }

  lemma NoMatch(c: string, tail: string)
    requires Edge(c, tail) && Follows(tail) && !Separates(c)
    ensures MatchHere(c + tail).None?
  {
    MatchLocal(c, tail);
  }

  lemma {:induction false} FindThrough(c: string, tail: string)
    requires c != "" ==> Edge(c, tail)
    requires Follows(tail) && NoSeparator(c)
    ensures Find(c + tail).before == c + Find(tail).before
    ensures Find(c + tail).head == Find(tail).head
  {
    if c == "" {
      assert c + tail == tail;
      assert "" + Find(tail).before == Find(tail).before;
    } else {
      NoMatch(c, tail);
      FindStep(c, tail);
      FindThrough(c[1..], tail);
      FirstBack(c, Find(tail).before);
    }
  }

  /** A separator inside a content is found there. */
  lemma {:induction false} FindWithin(c: string, tail: string)
    requires c != "" && !IsSpace(c[|c| - 1])
    requires Follows(tail) && !NoSeparator(c)
    ensures |Find(c + tail).before| < |c|
  {
    if MatchHere(c + tail).None? {
      assert !Separates(c) by {
        MatchLocal(c, tail);
      }
      FindStep(c, tail);
      FindWithin(c[1..], tail);
    }
  }

  lemma {:induction false} WordLengthOf(key: string, tail: string)
    requires IsWord(key) && tail != "" && IsSpace(tail[0])
    ensures WordLength(key + tail) == |key|
  {
    WordThrough(key, tail);
    WordAll(key);
  }

  lemma {:induction false} WordAll(key: string)
    requires forall i | 0 <= i < |key| :: !IsSpace(key[i])
    ensures WordLength(key) == |key|
  {
    if key != "" {
      WordAll(key[1..]);
    }
  }

  lemma TwoBreaks(body: string)
    requires body != "" ==> !IsSpace(body[0])
    ensures Spaces("\n\n" + body) == 2 && LineEnd("\n\n" + body) == 2
  {
    var s := "\n\n" + body;
    assert s[1..] == "\n" + body;
    assert s[1..][1..] == body;
    assert Spaces(s[1..]) == 1;
    assert s[..2][1] == '\n';
  }

  lemma HashesRead(key: string, body: string)
    requires IsWord(key) && body != "" && !IsSpace(body[0])
    ensures AfterHashes(key + ("\n\n" + body)) == Some(Head(key, body))
  {
    var r := key + ("\n\n" + body);
    WordLengthOf(key, "\n\n" + body);
    assert r[|key|..] == "\n\n" + body;
    assert r[..|key|] == key;
    TwoBreaks(body);
    assert ("\n\n" + body)[2..] == body;
  }

  lemma RuleRead(v: string)
    requires v != "" && !IsSpace(v[0])
    ensures AfterRule("\n\n" + v) == AfterBlank(v)
  {
    TwoBreaks(v);
    assert ("\n\n" + v)[2..] == v;
  }

  /** The separator that is written is the separator that is read. */
  lemma SeparatorRead(key: string, body: string)
    requires IsWord(key) && body != "" && !IsSpace(body[0])
    ensures MatchHere("\n---\n" + ("\n## " + key + "\n\n" + body)) == Some(Head(key, body))
  {
    var r := key + ("\n\n" + body);
    var v := "## " + r;
    var s := "\n---\n" + ("\n## " + key + "\n\n" + body);
    assert s == "\n---" + ("\n\n" + v);
    assert s[4..] == "\n\n" + v;
    RuleRead(v);
    assert v[3..] == r;
    HashesRead(key, body);
  }

  /** The end of the file holds no separator. */
  lemma FindEnd()
    ensures Find("\n" + Tail([])) == Found("\n" + Tail([]), None)
  {
    var t := "\n\n---\n";
    assert "\n" + Tail([]) == t;
    assert t[1..] == "\n---\n" && t[1..][4..] == "\n" && "\n"[1..] == "";
    assert AfterRule("\n").None? by {
      assert Spaces("\n") == 1;
    }
    assert t[2..] == "---\n" && t[3..] == "--\n" && t[4..] == "-\n" && t[5..] == "\n" && t[6..] == "";
    assert t[2..][1..] == t[3..] && t[3..][1..] == t[4..] && t[4..][1..] == t[5..] && t[5..][1..] == t[6..];
    assert Find(t[5..]) == Found("\n", None);
    assert Find(t[4..]) == Found("-\n", None);
    assert Find(t[3..]) == Found("--\n", None);
    assert Find(t[2..]) == Found("---\n", None);
    assert Find(t[1..]) == Found("\n---\n", None);
  }

  /** A content and all that follows it. */
  function Body(content: string, rest: seq<Prompt>): string { content + ("\n" + Tail(rest)) }

  lemma SeparatorFound(t: string, head: Head)
    requires t != "" && MatchHere(t) == Some(head)
    ensures Find("\n" + t) == (if MatchHere("\n" + t).Some? then Found("", MatchHere("\n" + t)) else Found("\n", Some(head)))
  {
    assert ("\n" + t)[1..] == t;
    assert Find(t) == Found("", Some(head));
    assert "\n" + "" == "\n";
  }

  lemma NoRuleYet(t: string)
    requires t != "" && t[0] == '\n'
    ensures MatchHere("\n" + t).None?
  {
    PrefixAt("\n---", "\n" + t, 1);
  }

  /** After a content the next match is the separator of the next prompt. */
  lemma FindNext(prompts: seq<Prompt>)
    requires prompts != [] && IsWord(prompts[0].key)
    requires prompts[0].content != "" && !IsSpace(prompts[0].content[0])
    ensures Find("\n" + Tail(prompts))
            == Found("\n", Some(Head(prompts[0].key, Body(prompts[0].content, prompts[1..]))))
  {
    SeparatorRead(prompts[0].key, Body(prompts[0].content, prompts[1..]));
    SeparatorFound(Tail(prompts), Head(prompts[0].key, Body(prompts[0].content, prompts[1..])));
    NoRuleYet(Tail(prompts));
  }

  lemma {:induction false} StripShorter(s: string)
    ensures |LStrip(s)| <= |s| && |RStrip(s)| <= |s| && |Strip(s)| <= |s|
    decreases |s|
  {
    LStripShorter(s);
    RStripShorter(s);
    RStripShorter(LStrip(s));
  }

  lemma {:induction false} LStripShorter(s: string)
    ensures |LStrip(s)| <= |s|
  {
    if s != "" && IsSpace(s[0]) {
      LStripShorter(s[1..]);
    }
  }

  lemma {:induction false} RStripShorter(s: string)
    ensures |RStrip(s)| <= |s|
  {
    if s != "" && IsSpace(s[|s| - 1]) {
      RStripShorter(s[..|s| - 1]);
    }
  }

  lemma TidyShorter(region: string)
    ensures |Tidy(region)| <= |region|
  {
    StripShorter(region);
    var c := Strip(region);
    if EndsWith(c, "\n---") {
      StripShorter(c[..|c| - 4]);
    } else if EndsWith(c, "---") {
      StripShorter(c[..|c| - 3]);
    }
  }

  lemma StripsBreak(c: string)
    requires Stripped(c) && c != ""
    ensures Strip(c + "\n") == c
  {
    StripUnique("", c, "\n");
    assert "" + c + "\n" == c + "\n";
  }

  /** What stripping leaves is kept exactly when it does not end in a rule. */
  lemma TidyKeeps(region: string)
    requires Strip(region) != ""
    ensures Tidy(region) == Strip(region) <==> !EndsWith(Strip(region), "---")
  {
    var c := Strip(region);
    if EndsWith(c, "\n---") {
      assert c[|c| - 3..] == c[|c| - 4..][1..];
      StripShorter(c[..|c| - 4]);
    } else if EndsWith(c, "---") {
      StripShorter(c[..|c| - 3]);
    }
  }

  /** Between two rules a content comes back exactly when it does not itself end in one. */
  lemma TidyInner(c: string)
    requires Stripped(c) && c != ""
    ensures Tidy(c + "\n") == c <==> !EndsWith(c, "---")
  {
    StripsBreak(c);
    TidyKeeps(c + "\n");
  }

  /** Before the end of the file it always does. */
  lemma TidyLast(c: string)
    requires Stripped(c) && c != ""
    ensures Tidy(c + ("\n" + Tail([]))) == c
  {
    var d := c + "\n\n---";
    StripUnique("", d, "\n");
    assert "" + d + "\n" == c + ("\n" + Tail([]));
    assert d[|d| - 4..] == "\n---";
    assert d[..|d| - 4] == c + "\n";
    StripsBreak(c);
  }

  /** The keys are words, the contents stripped, not empty and without carriage returns. */
  predicate Plain(prompts: seq<Prompt>) {
    forall p | p in prompts :: PlainPrompt(p)
  }

  /** No content holds a separator, and none but the last ends in a rule. */
  predicate Separable(prompts: seq<Prompt>) {
    forall i | 0 <= i < |prompts| ::
      NoSeparator(prompts[i].content) && (i + 1 < |prompts| ==> !EndsWith(prompts[i].content, "---"))
  }

  function Tidied(sections: seq<Prompt>): seq<Prompt> {
    if sections == [] then []
    else [Prompt(sections[0].key, Tidy(sections[0].content))] + Tidied(sections[1..])
  }

  lemma SeparableRest(p: Prompt, prompts: seq<Prompt>)
    ensures Separable([p] + prompts) <==>
            NoSeparator(p.content) && (prompts != [] ==> !EndsWith(p.content, "---")) && Separable(prompts)
  {
    var all := [p] + prompts;
    if Separable(all) {
      forall i | 0 <= i < |prompts|
        ensures NoSeparator(prompts[i].content) && (i + 1 < |prompts| ==> !EndsWith(prompts[i].content, "---"))
      {
        assert all[i + 1] == prompts[i];
      }
      assert all[0] == p;
    }
  }

  lemma TailFollows(prompts: seq<Prompt>)
    ensures Follows("\n" + Tail(prompts))
  {
    assert Tail(prompts)[0] == '\n' && Tail(prompts)[1] == '-';
  }

  /** The last section runs to the end of the file. */
  lemma LastSection(key: string, c: string)
    requires c != "" && Stripped(c) && NoSeparator(c)
    ensures Sections(key, Body(c, [])) == [Prompt(key, c + ("\n" + Tail([])))]
  {
    TailFollows([]);
    FindThrough(c, "\n" + Tail([]));
    FindEnd();
  }

  /** A section of a content without separators, and then the next. */
  lemma NextSection(key: string, c: string, q: Prompt, more: seq<Prompt>)
    requires c != "" && Stripped(c) && NoSeparator(c)
    requires IsWord(q.key) && q.content != "" && Stripped(q.content)
    ensures Sections(key, Body(c, [q] + more)) == [Prompt(key, c + "\n")] + Sections(q.key, Body(q.content, more))
  {
    var rest := [q] + more;
    assert rest[1..] == more;
    TailFollows(rest);
    FindThrough(c, "\n" + Tail(rest));
    FindNext(rest);
  }

  /** A separator inside a content cuts its section short. */
  lemma BrokenSection(p: Prompt, rest: seq<Prompt>)
    requires p.content != "" && Stripped(p.content) && !NoSeparator(p.content)
    ensures Tidied(Sections(p.key, Body(p.content, rest))) != [p] + rest
  {
    TailFollows(rest);
    FindWithin(p.content, "\n" + Tail(rest));
    TidyShorter(Find(Body(p.content, rest)).before);
    HeadDiffers(p, rest, Sections(p.key, Body(p.content, rest)));
  }

  predicate PlainPrompt(p: Prompt) {
    IsWord(p.key) && Stripped(p.content) && p.content != "" && '\r' !in p.content
  }

  /** From the first key on, the sections are the prompts exactly when they are separable. */
  lemma {:induction false} SectionsFrom(p: Prompt, rest: seq<Prompt>)
    requires PlainPrompt(p) && Plain(rest)
    ensures Tidied(Sections(p.key, Body(p.content, rest))) == [p] + rest <==> Separable([p] + rest)
    decreases |rest|
  {
    SeparableRest(p, rest);
    if !NoSeparator(p.content) {
      BrokenSection(p, rest);
    } else if rest == [] {
      LastSection(p.key, p.content);
      TidyLast(p.content);
      TidiedOne(Prompt(p.key, p.content + ("\n" + Tail([]))));
      assert [p] + rest == [p];
    } else {
      var q, more := rest[0], rest[1..];
      assert q in rest && forall x | x in more :: x in rest;
      assert rest == [q] + more;
      NextSection(p.key, p.content, q, more);
      TidyInner(p.content);
      SectionsFrom(q, more);
      TidiedCons(Prompt(p.key, p.content + "\n"), Sections(q.key, Body(q.content, more)));
      ConsEqual(Prompt(p.key, Tidy(p.content + "\n")), Tidied(Sections(q.key, Body(q.content, more))), p, rest);
    }
  }

  lemma ConsEqual(x: Prompt, xs: seq<Prompt>, y: Prompt, ys: seq<Prompt>)
    ensures [x] + xs == [y] + ys <==> x == y && xs == ys
  {
    if [x] + xs == [y] + ys {
      assert ([x] + xs)[0] == x && ([x] + xs)[1..] == xs;
      assert ([y] + ys)[0] == y && ([y] + ys)[1..] == ys;
    }
  }

  lemma TidiedOne(s: Prompt)
    ensures Tidied([s]) == [Prompt(s.key, Tidy(s.content))]
  {
    assert [s][1..] == [];
  }

  lemma TidiedCons(s: Prompt, more: seq<Prompt>)
    ensures Tidied([s] + more) == [Prompt(s.key, Tidy(s.content))] + Tidied(more)
  {
    assert ([s] + more)[1..] == more;
  }

  lemma HeadDiffers(p: Prompt, rest: seq<Prompt>, sections: seq<Prompt>)
    requires sections != [] && |Tidy(sections[0].content)| < |p.content|
    ensures Tidied(sections) != [p] + rest
  {
    assert ([p] + rest)[0] == p;
  }

  // ------------------------------------------------------------- whole files

  lemma NoRule(s: string)
    requires '-' !in s
    ensures NoSeparator(s)
  {
    if s != "" {
      assert s == [s[0]] + s[1..];
      PrefixAt("\n---", s, 1);
      NoRule(s[1..]);
    }
  }

  lemma HeaderPlain()
    ensures '-' !in Header() && '\r' !in Header() && Header() != "" && Header()[|Header()| - 1] == '.'
  {
    assert '-' !in TITLE && '-' !in NOTE;
    assert '\r' !in TITLE && '\r' !in NOTE;
  }

  lemma {:induction false} TailUnbroken(prompts: seq<Prompt>)
    requires Plain(prompts)
    ensures '\r' !in Tail(prompts)
  {
    if prompts != [] {
      assert prompts[0] in prompts;
      forall x | x in prompts[1..] ensures x in prompts {}
      TailUnbroken(prompts[1..]);
    }
  }

  /** The sections of a saved file begin with the first prompt. */
  lemma SectionsOfFile(prompts: seq<Prompt>)
    requires Plain(prompts)
    ensures AllSections(Header() + ("\n" + Tail(prompts))) ==
            if prompts == [] then [] else Sections(prompts[0].key, Body(prompts[0].content, prompts[1..]))
  {
    HeaderPlain();
    NoRule(Header());
    TailFollows(prompts);
    FindThrough(Header(), "\n" + Tail(prompts));
    if prompts == [] {
      FindEnd();
    } else {
      assert PlainPrompt(prompts[0]);
      FindNext(prompts);
    }
  }

  lemma ReadsBack(prompts: seq<Prompt>)
    requires Plain(prompts)
    ensures Unified(Rendered(prompts)) == Header() + ("\n" + Tail(prompts))
  {
    RenderedIs(prompts);
    HeaderPlain();
    TailUnbroken(prompts);
    assert Rendered(prompts) == Header() + ("\n" + Tail(prompts));
    UnifiedSame(Rendered(prompts));
  }

  /** For plain prompts the sections read back from the saved file are the prompts, in
      order, exactly when no content holds a separator and none but the last ends in a rule. */
  lemma RoundTrip(prompts: seq<Prompt>)
    requires Plain(prompts)
    ensures Tidied(AllSections(Unified(Rendered(prompts)))) == prompts <==> Separable(prompts)
  {
    ReadsBack(prompts);
    SectionsOfFile(prompts);
    if prompts != [] {
      assert PlainPrompt(prompts[0]);
      assert prompts == [prompts[0]] + prompts[1..];
      assert Plain(prompts[1..]);
      SectionsFrom(prompts[0], prompts[1..]);
    }
  }

  predicate DistinctKeys(prompts: seq<Prompt>) {
    forall i, j | 0 <= i < j < |prompts| :: prompts[i].key != prompts[j].key
  }

  lemma {:induction false} AssignNew(prompts: seq<Prompt>, p: Prompt)
    requires forall x | x in prompts :: x.key != p.key
    ensures Assign(prompts, p) == prompts + [p]
  {
    if prompts != [] {
      AssignNew(prompts[1..], p);
    }
  }

  lemma {:induction false} TidiedAppend(xs: seq<Prompt>, s: Prompt)
    ensures Tidied(xs + [s]) == Tidied(xs) + [Prompt(s.key, Tidy(s.content))]
  {
    if xs == [] {
      assert xs + [s] == [s];
      TidiedOne(s);
    } else {
      assert (xs + [s])[1..] == xs[1..] + [s];
      TidiedAppend(xs[1..], s);
    }
  }

  /** Distinct keys and contents that are not empty make the map the list. */
  lemma {:induction false} AssignedIs(sections: seq<Prompt>)
    requires Plain(Tidied(sections)) && DistinctKeys(Tidied(sections))
    ensures Assigned(sections) == Tidied(sections)
  {
    if sections != [] {
      var n := |sections| - 1;
      var s := sections[n];
      var p := Prompt(s.key, Tidy(s.content));
      assert sections == sections[..n] + [s];
      TidiedAppend(sections[..n], s);
      var before := Tidied(sections[..n]);
      assert Tidied(sections)[|before|] == p;
      assert p in Tidied(sections);
      forall x | x in before ensures x in Tidied(sections) && x.key != p.key {
        var i :| 0 <= i < |before| && before[i] == x;
        assert Tidied(sections)[i] == x;
      }
      assert DistinctKeys(before) by {
        forall i, j | 0 <= i < j < |before| ensures before[i].key != before[j].key {
          assert Tidied(sections)[i] == before[i] && Tidied(sections)[j] == before[j];
        }
      }
      AssignedIs(sections[..n]);
      AssignNew(before, p);
    }
  }

  // ---------------------------------------------------- what the pattern means

  /** `\n---\s*\n+## (\S+)\s*\n` matches up to here: the rule, blanks to a line start, two
      hashes and a word, blanks to a line end, and no blank line is left in front of the rest. */
  predicate IsMatch(s: string, blanks: string, key: string, more: string, rest: string) {
    && s == "\n---" + (blanks + ("\n" + ("## " + (key + (more + ("\n" + rest))))))
    && AllSpace(blanks) && AllSpace(more) && IsWord(key)
    && LineEnd(rest) == 0
  }

  lemma {:induction false} SpacesAre(pad: string, tail: string)
    requires AllSpace(pad)
    ensures Spaces(pad + tail) == |pad| + Spaces(tail)
  {
    if pad == "" {
      assert pad + tail == tail;
    } else {
      assert (pad + tail)[1..] == pad[1..] + tail;
      SpacesAre(pad[1..], tail);
    }
  }

  lemma {:induction false} WordsAre(key: string, tail: string)
    requires forall i | 0 <= i < |key| :: !IsSpace(key[i])
    requires tail != "" && IsSpace(tail[0])
    ensures WordLength(key + tail) == |key|
  {
    if key == "" {
      assert key + tail == tail;
    } else {
      assert (key + tail)[1..] == key[1..] + tail;
      WordsAre(key[1..], tail);
    }
  }

  lemma {:induction false} LeadingSpaces(s: string)
    ensures AllSpace(s[..Spaces(s)])
  {
    if s != "" && IsSpace(s[0]) {
      LeadingSpaces(s[1..]);
      assert s[..Spaces(s)] == [s[0]] + s[1..][..Spaces(s[1..])];
    }
  }

  lemma {:induction false} LastBreakBehind(s: string, t: string)
    ensures LastBreak(s + "\n" + t) == |s| + 1 + LastBreak(t)
    decreases |t|
  {
    var all := s + "\n" + t;
    if t == "" {
      assert all == s + "\n";
    } else {
      assert all[..|all| - 1] == s + "\n" + t[..|t| - 1];
      LastBreakBehind(s, t[..|t| - 1]);
    }
  }

  lemma {:induction false} LastBreakAt(s: string)
    ensures LastBreak(s) > 0 ==> s[LastBreak(s) - 1] == '\n'
    ensures LastBreak(s[LastBreak(s)..]) == 0
  {
    var n := |s| - 1;
    if s != "" && s[n] != '\n' {
      LastBreakAt(s[..n]);
      var b := LastBreak(s);
      assert s[b..][..n - b] == s[..n][b..];
    }
  }

  /** Where the white space in front ends at a line break, the rest begins. */
  lemma LineEndIs(t: string)
    requires LineEnd(t) > 0
    ensures AllSpace(t[..LineEnd(t) - 1]) && t[LineEnd(t) - 1] == '\n' && LineEnd(t[LineEnd(t)..]) == 0
  {
    var n, b := Spaces(t), LineEnd(t);
    LeadingSpaces(t);
    LastBreakAt(t[..n]);
    assert t[..b - 1] == t[..n][..b - 1];
    assert t == t[..b] + t[b..];
    assert AllSpace(t[..b]);
    SpacesAre(t[..b], t[b..]);
    assert t[b..][..Spaces(t[b..])] == t[..n][b..];
  }

  lemma LineEndOf(more: string, rest: string)
    requires AllSpace(more) && LineEnd(rest) == 0
    ensures LineEnd(more + ("\n" + rest)) == |more| + 1
  {
    var t := more + ("\n" + rest);
    assert t == (more + "\n") + rest;
    SpacesAre(more + "\n", rest);
    assert t[..Spaces(t)] == more + "\n" + rest[..Spaces(rest)];
    LastBreakBehind(more, rest[..Spaces(rest)]);
  }

  lemma HashesMean(key: string, more: string, rest: string)
    requires AllSpace(more) && IsWord(key) && LineEnd(rest) == 0
    ensures AfterHashes(key + (more + ("\n" + rest))) == Some(Head(key, rest))
  {
    var t := more + ("\n" + rest);
    var r := key + t;
    assert t[0] == (if more == "" then '\n' else more[0]);
    WordsAre(key, t);
    assert r[|key|..] == t && r[..|key|] == key;
    LineEndOf(more, rest);
    assert t[|more| + 1..] == rest;
  }

  lemma HashesMeant(r: string) returns (more: string)
    requires AfterHashes(r).Some?
    ensures var h := AfterHashes(r).value;
      r == h.key + (more + ("\n" + h.rest)) && AllSpace(more) && IsWord(h.key) && LineEnd(h.rest) == 0
  {
    var k := WordLength(r);
    var t := r[k..];
    WordIs(r);
    LineEndIs(t);
    more := t[..LineEnd(t) - 1];
    assert t == more + ("\n" + t[LineEnd(t)..]);
    assert r == r[..k] + t;
  }

  lemma CutAt(w: string, n: nat)
    requires n == Spaces(w) && n > 0 && w[n - 1] == '\n'
    ensures w == w[..n - 1] + ("\n" + w[n..]) && AllSpace(w[..n - 1])
  {
    LeadingSpaces(w);
    assert w[..n - 1] == w[..n][..n - 1];
  }

  lemma CutFront(s: string, part: string)
    requires part <= s
    ensures s == part + s[|part|..]
  {
  }

  lemma RuleMeant(w: string) returns (blanks: string, v: string)
    requires AfterRule(w).Some?
    ensures w == blanks + ("\n" + v) && AllSpace(blanks) && AfterRule(w) == AfterBlank(v)
  {
    var n := Spaces(w);
    CutAt(w, n);
    blanks, v := w[..n - 1], w[n..];
  }

  lemma BlankMeant(v: string) returns (r: string)
    requires AfterBlank(v).Some?
    ensures v == "## " + r && AfterBlank(v) == AfterHashes(r)
  {
    r := v[3..];
  }

  lemma MatchSplit(s: string) returns (w: string)
    requires MatchHere(s).Some?
    ensures s == "\n---" + w && MatchHere(s) == AfterRule(w)
  {
    CutFront(s, "\n---");
    w := s[4..];
  }

  /** A match read off is a match of the pattern. */
  lemma MatchMeant(s: string) returns (blanks: string, more: string)
    requires MatchHere(s).Some?
    ensures IsMatch(s, blanks, MatchHere(s).value.key, more, MatchHere(s).value.rest)
  {
    var w := MatchSplit(s);
    var v;
    blanks, v := RuleMeant(w);
    var r := BlankMeant(v);
    more := HashesMeant(r);
  }

  lemma RuleMeans(blanks: string, v: string)
    requires AllSpace(blanks) && v != "" && !IsSpace(v[0])
    ensures AfterRule(blanks + ("\n" + v)) == AfterBlank(v)
  {
    var w := blanks + ("\n" + v);
    assert w == (blanks + "\n") + v;
    SpacesAre(blanks + "\n", v);
    assert w[|blanks| + 1..] == v && w[|blanks|] == '\n';
  }

  lemma BlankMeans(r: string)
    ensures AfterBlank("## " + r) == AfterHashes(r)
  {
    assert ("## " + r)[3..] == r;
  }

  /** And every match of the pattern is read off. */
  lemma MatchMeans(s: string, blanks: string, key: string, more: string, rest: string)
    requires IsMatch(s, blanks, key, more, rest)
    ensures MatchHere(s) == Some(Head(key, rest))
  {
    var r := key + (more + ("\n" + rest));
    var v := "## " + r;
    assert s[4..] == blanks + ("\n" + v);
    assert v[0] == '#';
    RuleMeans(blanks, v);
    BlankMeans(r);
    HashesMean(key, more, rest);
  }

  /** The search finds the leftmost match, if there is one. */
  lemma {:induction false} FindMeans(s: string)
    ensures var f := Find(s);
      && f.before <= s && f.head == MatchHere(s[|f.before|..])
      && (f.head.None? ==> f.before == s)
      && forall i | 0 <= i < |f.before| :: MatchHere(s[i..]).None?
  {
    if s == "" {
      assert MatchHere(s).None?;
    } else if MatchHere(s).Some? {
      assert s[0..] == s;
    } else {
      var f, g := Find(s), Find(s[1..]);
      FindMeans(s[1..]);
      assert s[|f.before|..] == s[1..][|g.before|..];
      forall i | 0 <= i < |f.before| ensures MatchHere(s[i..]).None? {
        if i == 0 {
          assert s[0..] == s;
        } else {
          assert s[i..] == s[1..][i - 1..];
        }
      }
    }
  }

  // -------------------------------------------------- the map and its changes

  /** Keys and order as before; the content of this key is another, all others are as before. */
  predicate Updated(before: seq<Prompt>, after: seq<Prompt>, key: string, content: string) {
    && |after| == |before|
    && forall i | 0 <= i < |before| ::
         after[i].key == before[i].key
         && after[i].content == if before[i].key == key then content else before[i].content
  }

  /** Assigning to a known key replaces its content, in its place. */
  lemma {:induction false} AssignKnown(prompts: seq<Prompt>, key: string, content: string)
    requires DistinctKeys(prompts) && exists p :: p in prompts && p.key == key
    ensures Updated(prompts, Assign(prompts, Prompt(key, content)), key, content)
  {
    if prompts[0].key != key {
      var rest := prompts[1..];
      var p :| p in prompts && p.key == key;
      assert p in rest;
      AssignKnown(rest, key, content);
      var out := Assign(rest, Prompt(key, content));
      forall i | 0 < i < |prompts|
        ensures ([prompts[0]] + out)[i] == out[i - 1] && prompts[i] == rest[i - 1] {}
    }
  }

  /** Changing contents or adding a key keeps the keys distinct. */
  lemma AssignDistinct(prompts: seq<Prompt>, p: Prompt)
    requires DistinctKeys(prompts)
    ensures DistinctKeys(Assign(prompts, p))
  {
    if exists x :: x in prompts && x.key == p.key {
      AssignKnown(prompts, p.key, p.content);
    } else {
      AssignNew(prompts, p);
    }
  }

  /** The map holds the new prompt and the old ones of other keys. */
  lemma AssignHolds(prompts: seq<Prompt>, p: Prompt, x: Prompt)
    requires DistinctKeys(prompts)
    ensures x in Assign(prompts, p) <==> x == p || (x in prompts && x.key != p.key)
  {
    if exists y :: y in prompts && y.key == p.key {
      AssignKnown(prompts, p.key, p.content);
      UpdatedHolds(prompts, Assign(prompts, p), p, x);
    } else {
      AssignNew(prompts, p);
    }
  }

  lemma UpdatedHolds(before: seq<Prompt>, after: seq<Prompt>, p: Prompt, x: Prompt)
    requires Updated(before, after, p.key, p.content) && exists y :: y in before && y.key == p.key
    ensures x in after <==> x == p || (x in before && x.key != p.key)
  {
    var y :| y in before && y.key == p.key;
    var k :| 0 <= k < |before| && before[k] == y;
    assert after[k] == p;
    if x in before && x.key != p.key {
      var i :| 0 <= i < |before| && before[i] == x;
      assert after[i] == x;
    }
    if x in after {
      var i :| 0 <= i < |after| && after[i] == x;
      assert before[i] in before;
      assert before[i].key != p.key ==> x == before[i];
    }
  }

  /** A section with a key and words of its own. */
  predicate Usable(s: Prompt) { s.key != "" && s.content != "" }

  /** The map that tidied sections make, one after the other. */
  function Entered(items: seq<Prompt>): seq<Prompt> {
    if items == [] then []
    else
      var n := |items| - 1;
      if Usable(items[n]) then Assign(Entered(items[..n]), items[n]) else Entered(items[..n])
  }

  lemma {:induction false} AssignedEntered(sections: seq<Prompt>)
    ensures Assigned(sections) == Entered(Tidied(sections))
  {
    if sections != [] {
      var n := |sections| - 1;
      AssignedEntered(sections[..n]);
      assert sections == sections[..n] + [sections[n]];
      TidiedAppend(sections[..n], sections[n]);
      EnteredNext(Tidied(sections[..n]), Prompt(sections[n].key, Tidy(sections[n].content)));
    }
  }

  lemma EnteredNext(items: seq<Prompt>, s: Prompt)
    ensures Entered(items + [s]) == if Usable(s) then Assign(Entered(items), s) else Entered(items)
  {
    assert (items + [s])[..|items|] == items;
  }

  /** No later section with this key has words. */
  predicate LastOfKey(items: seq<Prompt>, i: nat) {
    i < |items| && Usable(items[i]) && forall j | i < j < |items| && items[j].key == items[i].key :: !Usable(items[j])
  }

  /** The prompt is the last section of its key that has words. */
  ghost predicate FromLast(items: seq<Prompt>, x: Prompt) {
    exists i: nat :: LastOfKey(items, i) && items[i] == x
  }

  lemma LastOfKeyNext(before: seq<Prompt>, s: Prompt, i: nat)
    requires i < |before|
    ensures LastOfKey(before + [s], i) <==> LastOfKey(before, i) && !(Usable(s) && s.key == before[i].key)
  {
    var all := before + [s];
    assert all[|before|] == s;
    assert forall j | 0 <= j < |before| :: all[j] == before[j];
  }

  lemma FromLastNext(before: seq<Prompt>, s: Prompt, x: Prompt)
    ensures FromLast(before + [s], x) <==> if Usable(s) && x.key == s.key then x == s else FromLast(before, x)
  {
    var all, n := before + [s], |before|;
    if Usable(s) {
      assert LastOfKey(all, n);
    }
    if i: nat :| LastOfKey(before, i) && before[i] == x {
      LastOfKeyNext(before, s, i);
      assert all[i] == x;
    }
    if i: nat :| LastOfKey(all, i) && all[i] == x && i < n {
      LastOfKeyNext(before, s, i);
      assert before[i] == x;
    }
  }

  lemma {:induction false} EnteredHolds(items: seq<Prompt>, x: Prompt)
    ensures DistinctKeys(Entered(items))
    ensures x in Entered(items) <==> FromLast(items, x)
  {
    if items != [] {
      var n := |items| - 1;
      assert items == items[..n] + [items[n]];
      EnteredHolds(items[..n], x);
      FromLastNext(items[..n], items[n], x);
      if Usable(items[n]) {
        AssignDistinct(Entered(items[..n]), items[n]);
        AssignHolds(Entered(items[..n]), items[n], x);
      }
    }
  }

  /** Of the sections with one key the last that is not empty counts. */
  lemma LastSectionCounts(text: string, x: Prompt)
    ensures DistinctKeys(Extracted(text))
    ensures x in Extracted(text) <==> FromLast(Tidied(AllSections(text)), x)
  {
    AssignedEntered(AllSections(text));
    EnteredHolds(Tidied(AllSections(text)), x);
  }

  predicate FirstOfKey(items: seq<Prompt>, i: nat) {
    i < |items| && Usable(items[i]) && forall j | 0 <= j < i && items[j].key == items[i].key :: !Usable(items[j])
  }

  /** The sections that first bring a key in, in this order. */
  predicate Firsts(items: seq<Prompt>, prompts: seq<Prompt>, firsts: seq<nat>) {
    && |firsts| == |prompts|
    && (forall j, k | 0 <= j < k < |firsts| :: firsts[j] < firsts[k])
    && (forall k | 0 <= k < |firsts| :: FirstOfKey(items, firsts[k]) && items[firsts[k]].key == prompts[k].key)
  }

  lemma FirstsLonger(items: seq<Prompt>, s: Prompt, prompts: seq<Prompt>, firsts: seq<nat>)
    requires Firsts(items, prompts, firsts)
    ensures Firsts(items + [s], prompts, firsts)
  {
    forall k | 0 <= k < |firsts|
      ensures FirstOfKey(items + [s], firsts[k]) && (items + [s])[firsts[k]].key == prompts[k].key
    {
      assert FirstOfKey(items, firsts[k]);
    }
  }

  lemma FirstsMore(items: seq<Prompt>, s: Prompt, prompts: seq<Prompt>, firsts: seq<nat>)
    requires Firsts(items, prompts, firsts) && FirstOfKey(items + [s], |items|)
    ensures Firsts(items + [s], prompts + [s], firsts + [|items|])
  {
    FirstsLonger(items, s, prompts, firsts);
    forall k | 0 <= k < |firsts| ensures firsts[k] < |items| {
      assert FirstOfKey(items, firsts[k]);
    }
  }

  lemma {:induction false} EnteredOrder(items: seq<Prompt>) returns (firsts: seq<nat>)
    ensures Firsts(items, Entered(items), firsts)
  {
    firsts := [];
    if items != [] {
      var n := |items| - 1;
      var s, before := items[n], Entered(items[..n]);
      assert items == items[..n] + [s];
      firsts := EnteredOrder(items[..n]);
      FirstsLonger(items[..n], s, before, firsts);
      if Usable(s) {
        EnteredHolds(items[..n], s);
        if x :| x in before && x.key == s.key {
          AssignKnown(before, s.key, s.content);
        } else {
          AssignNew(before, s);
          NewIsFirst(items[..n], s, before);
          FirstsMore(items[..n], s, before, firsts);
          firsts := firsts + [n];
        }
      }
    }
  }

  lemma NewIsFirst(items: seq<Prompt>, s: Prompt, before: seq<Prompt>)
    requires Usable(s) && before == Entered(items) && forall x | x in before :: x.key != s.key
    ensures FirstOfKey(items + [s], |items|)
  {
    forall j | 0 <= j < |items| && items[j].key == s.key ensures !Usable(items[j]) {
      if Usable(items[j]) {
        var i := LastFrom(items, j);
        EnteredHolds(items, items[i]);
      }
    }
  }

  /** From a section with words on there is a last one of its key. */
  lemma {:induction false} LastFrom(items: seq<Prompt>, j: nat) returns (i: nat)
    requires j < |items| && Usable(items[j])
    ensures j <= i < |items| && items[i].key == items[j].key && LastOfKey(items, i)
    decreases |items| - j
  {
    i := j;
    if k :| j < k < |items| && items[k].key == items[j].key && Usable(items[k]) {
      i := LastFrom(items, k);
    }
  }

  /** And the keys come in the order in which they first came. */
  lemma KeysAsTheyCame(text: string) returns (firsts: seq<nat>)
    ensures Firsts(Tidied(AllSections(text)), Extracted(text), firsts)
  {
    AssignedEntered(AllSections(text));
    firsts := EnteredOrder(Tidied(AllSections(text)));
  }

  // ------------------------------------------------- the map and its sections

  lemma {:induction false} AssignMembers(prompts: seq<Prompt>, p: Prompt, x: Prompt)
    requires x in Assign(prompts, p)
    ensures x == p || x in prompts
  {
    if prompts != [] && prompts[0].key != p.key && x != prompts[0] {
      AssignMembers(prompts[1..], p, x);
    }
  }

  /** The map holds nothing but sections. */
  lemma {:induction false} AssignedMembers(sections: seq<Prompt>, x: Prompt)
    requires x in Assigned(sections)
    ensures exists i :: 0 <= i < |sections| && x == Prompt(sections[i].key, Tidy(sections[i].content))
  {
    var n := |sections| - 1;
    var p := Prompt(sections[n].key, Tidy(sections[n].content));
    if x != p {
      if x !in Assigned(sections[..n]) {
        AssignMembers(Assigned(sections[..n]), p, x);
      }
      AssignedMembers(sections[..n], x);
      var i :| 0 <= i < n && x == Prompt(sections[..n][i].key, Tidy(sections[..n][i].content));
      assert x == Prompt(sections[i].key, Tidy(sections[i].content));
    }
  }

  /** Without separators in the contents there is one section for every prompt. */
  lemma {:induction false} SectionsMatch(p: Prompt, rest: seq<Prompt>)
    requires PlainPrompt(p) && Plain(rest)
    requires NoSeparator(p.content) && forall q | q in rest :: NoSeparator(q.content)
    ensures var s := Sections(p.key, Body(p.content, rest)); var all := [p] + rest;
      |s| == |all| && forall i | 0 <= i < |all| :: s[i].key == all[i].key
    decreases |rest|
  {
    if rest == [] {
      LastSection(p.key, p.content);
    } else {
      var q, more := rest[0], rest[1..];
      assert q in rest && forall x | x in more :: x in rest;
      assert rest == [q] + more;
      NextSection(p.key, p.content, q, more);
      SectionsMatch(q, more);
    }
  }

  lemma {:induction false} TidiedAt(sections: seq<Prompt>, i: nat)
    requires i < |sections|
    ensures |Tidied(sections)| == |sections|
    ensures Tidied(sections)[i] == Prompt(sections[i].key, Tidy(sections[i].content))
  {
    if |sections| > 1 {
      TidiedAt(sections[1..], if i > 0 then i - 1 else 0);
    } else {
      TidiedOne(sections[0]);
    }
  }

  /** A map that comes back is the list of its sections, if they have its keys. */
  lemma SectionsAreMap(sections: seq<Prompt>, prompts: seq<Prompt>)
    requires DistinctKeys(prompts) && |sections| == |prompts|
    requires forall i | 0 <= i < |prompts| :: sections[i].key == prompts[i].key
    requires Assigned(sections) == prompts
    ensures Tidied(sections) == prompts
  {
    forall i | 0 <= i < |prompts| ensures |Tidied(sections)| == |prompts| && Tidied(sections)[i] == prompts[i] {
      AssignedMembers(sections, prompts[i]);
      var j :| 0 <= j < |sections| && prompts[i] == Prompt(sections[j].key, Tidy(sections[j].content));
      assert j == i;
      TidiedAt(sections, i);
    }
    if prompts == [] {
      assert sections == [];
    }
  }

  lemma FileMatches(prompts: seq<Prompt>)
    requires Plain(prompts) && forall p | p in prompts :: NoSeparator(p.content)
    ensures var s := AllSections(Unified(Rendered(prompts)));
      |s| == |prompts| && forall i | 0 <= i < |prompts| :: s[i].key == prompts[i].key
  {
    ReadsBack(prompts);
    SectionsOfFile(prompts);
    if prompts != [] {
      assert prompts == [prompts[0]] + prompts[1..];
      assert PlainPrompt(prompts[0]) && Plain(prompts[1..]);
      SectionsMatch(prompts[0], prompts[1..]);
    }
  }

  lemma SeparableIs(prompts: seq<Prompt>)
    requires forall p | p in prompts :: NoSeparator(p.content)
    ensures Separable(prompts) <==> forall i | 0 <= i < |prompts| - 1 :: !EndsWith(prompts[i].content, "---")
  {
  }

  /** For plain prompts with distinct keys and no separators in their contents the map that
      is read back is the map that was saved exactly when none but the last ends in a rule. */
  lemma MapRoundTrip(prompts: seq<Prompt>)
    requires Plain(prompts) && DistinctKeys(prompts) && forall p | p in prompts :: NoSeparator(p.content)
    ensures Extracted(Unified(Rendered(prompts))) == prompts
            <==> forall i | 0 <= i < |prompts| - 1 :: !EndsWith(prompts[i].content, "---")
  {
    var sections := AllSections(Unified(Rendered(prompts)));
    RoundTrip(prompts);
    SeparableIs(prompts);
    if Separable(prompts) {
      AssignedIs(sections);
    }
    if Assigned(sections) == prompts {
      FileMatches(prompts);
      SectionsAreMap(sections, prompts);
    }
  }

  /** Two prompts, the first ending in a rule. */
  const Ruled := [Prompt("a", "x---"), Prompt("b", "y")]

  lemma {:induction false} NoBreak(c: string)
    requires '\n' !in c
    ensures NoSeparator(c)
  {
    if c != "" {
      PrefixAt("\n---", c, 0);
      NoBreak(c[1..]);
    }
  }

  /** Saved and read again, the first has lost its rule. */
  lemma RuleLost()
    ensures Plain(Ruled) && DistinctKeys(Ruled)
    ensures Extracted(Unified(Rendered(Ruled))) != Ruled
  {
    assert Ruled[0].content[1..] == "---";
    NoBreak("x---");
    NoBreak("y");
    MapRoundTrip(Ruled);
    assert EndsWith(Ruled[0].content, "---");
  }

  /** What can be saved without loss. */
  predicate Storable(prompts: seq<Prompt>) { Plain(prompts) && Separable(prompts) && DistinctKeys(prompts) }

  /** Reading back a saved map gives the same ordered map. */
  lemma ExtractRendered(prompts: seq<Prompt>)
    requires Storable(prompts)
    ensures Extracted(Unified(Rendered(prompts))) == prompts
  {
    RoundTrip(prompts);
    AssignedIs(AllSections(Unified(Rendered(prompts))));
  }

  // ------------------------------------------------------- only what is plain

  lemma {:induction false} UnifiedUnbroken(s: string)
    ensures '\r' !in Unified(s)
    decreases |s|
  {
    if s != "" {
      if s[0] == '\r' && |s| > 1 && s[1] == '\n' {
        UnifiedUnbroken(s[2..]);
      } else {
        UnifiedUnbroken(s[1..]);
      }
    }
  }

  lemma {:induction false} WordIs(s: string)
    ensures forall i | 0 <= i < WordLength(s) :: !IsSpace(s[i])
  {
    if s != "" && !IsSpace(s[0]) {
      WordIs(s[1..]);
    }
  }

  lemma HeadIsWord(s: string)
    requires MatchHere(s).Some?
    ensures IsWord(MatchHere(s).value.key)
    ensures '\r' !in s ==> '\r' !in MatchHere(s).value.rest
  {
    var w := s[4..];
    var r := w[Spaces(w)..][3..];
    WordIs(r);
  }

  lemma {:induction false} FindIsWord(s: string)
    ensures Find(s).head.Some? ==> IsWord(Find(s).head.value.key)
    ensures '\r' !in s ==> '\r' !in Find(s).before && (Find(s).head.Some? ==> '\r' !in Find(s).head.value.rest)
  {
    if s != "" {
      if MatchHere(s).Some? {
        HeadIsWord(s);
      } else {
        FindIsWord(s[1..]);
      }
    }
  }

  /** Sections have words for keys and no carriage returns. */
  predicate Clean(sections: seq<Prompt>) {
    forall p | p in sections :: IsWord(p.key) && '\r' !in p.content
  }

  lemma {:induction false} SectionsClean(key: string, s: string)
    requires IsWord(key) && '\r' !in s
    ensures Clean(Sections(key, s))
    decreases |s|
  {
    FindIsWord(s);
    var f := Find(s);
    if f.head.Some? {
      SectionsClean(f.head.value.key, f.head.value.rest);
    }
  }

  lemma {:induction false} LStripFront(s: string)
    ensures LStrip(s) != "" ==> !IsSpace(LStrip(s)[0])
    ensures '\r' !in s ==> '\r' !in LStrip(s)
  {
    if s != "" && IsSpace(s[0]) {
      LStripFront(s[1..]);
    }
  }

  lemma {:induction false} RStripBack(s: string)
    ensures RStrip(s) <= s
    ensures RStrip(s) != "" ==> !IsSpace(RStrip(s)[|RStrip(s)| - 1])
    ensures '\r' !in s ==> '\r' !in RStrip(s)
  {
    if s != "" && IsSpace(s[|s| - 1]) {
      RStripBack(s[..|s| - 1]);
    }
  }

  lemma StripStripped(s: string)
    ensures Stripped(Strip(s))
    ensures '\r' !in s ==> '\r' !in Strip(s)
  {
    LStripFront(s);
    RStripBack(LStrip(s));
  }

  lemma TidyStripped(region: string)
    ensures Stripped(Tidy(region))
    ensures '\r' !in region ==> '\r' !in Tidy(region)
  {
    StripStripped(region);
    var c := Strip(region);
    if EndsWith(c, "\n---") {
      StripStripped(c[..|c| - 4]);
    } else if EndsWith(c, "---") {
      StripStripped(c[..|c| - 3]);
    }
  }

  lemma {:induction false} AssignKeeps(prompts: seq<Prompt>, p: Prompt)
    requires Plain(prompts) && DistinctKeys(prompts) && PlainPrompt(p)
    ensures Plain(Assign(prompts, p)) && DistinctKeys(Assign(prompts, p))
    ensures forall x | x in Assign(prompts, p) :: x == p || x in prompts
  {
    if prompts != [] && prompts[0].key != p.key {
      forall x | x in prompts[1..] ensures x in prompts && x.key != prompts[0].key {}
      AssignKeeps(prompts[1..], p);
    } else if prompts != [] {
      forall x | x in prompts[1..] ensures x in prompts && x.key != prompts[0].key {}
    }
  }

  lemma {:induction false} AssignedPlain(sections: seq<Prompt>)
    requires Clean(sections)
    ensures Plain(Assigned(sections)) && DistinctKeys(Assigned(sections))
  {
    if sections != [] {
      var n := |sections| - 1;
      assert sections[n] in sections;
      forall p | p in sections[..n] ensures p in sections {}
      AssignedPlain(sections[..n]);
      TidyStripped(sections[n].content);
      if Tidy(sections[n].content) != "" {
        AssignKeeps(Assigned(sections[..n]), Prompt(sections[n].key, Tidy(sections[n].content)));
      }
    }
  }

  /** Whatever a file holds, reading it gives plain prompts with distinct keys; so a map
      that is not plain never survives being saved. */
  lemma ExtractedPlain(text: string)
    ensures Plain(Extracted(Unified(text))) && DistinctKeys(Extracted(Unified(text)))
  {
    var t := Unified(text);
    UnifiedUnbroken(text);
    FindIsWord(t);
    var f := Find(t);
    if f.head.Some? {
      SectionsClean(f.head.value.key, f.head.value.rest);
    }
    AssignedPlain(AllSections(t));
  }

  /** A map that comes back from its file is plain, with distinct keys. */
  lemma SurvivorIsPlain(prompts: seq<Prompt>)
    requires Extracted(Unified(Rendered(prompts))) == prompts
    ensures Plain(prompts) && DistinctKeys(prompts)
  {
    ExtractedPlain(Rendered(prompts));
  }

  // ------------------------------------------------------------------ service

  datatype EditError = AlreadyExists | DoesNotExist | SaveFailed

  function Lacking(prompts: seq<Prompt>, key: string): seq<Prompt> {
    if prompts == [] then []
    else if prompts[0].key == key then Lacking(prompts[1..], key)
    else [prompts[0]] + Lacking(prompts[1..], key)
  }

  predicate HasKey(prompts: seq<Prompt>, key: string) { exists p | p in prompts :: p.key == key }

  /** One place less, that of this key; all others as before. */
  ghost predicate Deleted(before: seq<Prompt>, after: seq<Prompt>, key: string) {
    exists i: nat :: i < |before| && before[i].key == key && after == before[..i] + before[i + 1..]
  }

  lemma {:induction false} LackingNone(prompts: seq<Prompt>, key: string)
    requires forall p | p in prompts :: p.key != key
    ensures Lacking(prompts, key) == prompts
  {
    if prompts != [] {
      LackingNone(prompts[1..], key);
    }
  }

  lemma {:induction false} LackingIs(prompts: seq<Prompt>, key: string)
    requires DistinctKeys(prompts) && HasKey(prompts, key)
    ensures Deleted(prompts, Lacking(prompts, key), key)
  {
    var rest := prompts[1..];
    if prompts[0].key == key {
      forall p | p in rest ensures p.key != key {
        var j :| 0 <= j < |rest| && rest[j] == p;
        assert prompts[j + 1] == p;
      }
      LackingNone(rest, key);
      assert prompts[..0] + prompts[0 + 1..] == rest;
    } else {
      assert HasKey(rest, key) by {
        var p :| p in prompts && p.key == key;
        assert p in rest;
      }
      LackingIs(rest, key);
      DeletedBehind(prompts[0], rest, Lacking(rest, key), key);
      assert prompts == [prompts[0]] + rest;
    }
  }

  lemma DeletedBehind(p: Prompt, before: seq<Prompt>, after: seq<Prompt>, key: string)
    requires Deleted(before, after, key)
    ensures Deleted([p] + before, [p] + after, key)
  {
    var i: nat :| i < |before| && before[i].key == key && after == before[..i] + before[i + 1..];
    var all := [p] + before;
    assert all[..i + 1] == [p] + before[..i] && all[i + 2..] == before[i + 1..];
    assert [p] + after == all[..i + 1] + all[(i + 1) + 1..];
    assert all[i + 1].key == key;
  }

  lemma DeletedDistinct(before: seq<Prompt>, after: seq<Prompt>, key: string)
    requires DistinctKeys(before) && Deleted(before, after, key)
    ensures DistinctKeys(after)
  {
  }

  class PromptLoader {
    var cache: seq<Prompt>
    var file: Option<string>

    /** The cache is a map. */
    predicate Valid()
      reads this
    {
      DistinctKeys(cache)
    }

    /** Reading the file again would give the cache. */
    ghost predicate InSync()
      reads this
    {
      cache == if file.Some? then Extracted(Unified(file.value)) else []
    }

    constructor (file: Option<string>)
      ensures this.file == file && Valid() && InSync()
    {
      this.file := file;
      cache := if file.Some? then Extracted(Unified(file.value)) else [];
      new;
      if file.Some? {
        ExtractedPlain(file.value);
      }
    }

    /** `_save_prompts`: everything that can fail comes before the file is replaced. */
    method Save() returns (saved: bool)
      modifies this`file
      ensures saved ==> file == Some(Rendered(cache))
      ensures !saved ==> file == old(file)
    {
      var output := Render(cache);
      if * {
        return false;
      }
      file := Some(output);
      saved := true;
    }

    /** `reload_cache`: the cache is cleared before the file is read. */
    method Reload() returns (loaded: bool)
      modifies this`cache
      ensures Valid()
      ensures loaded ==> InSync()
      ensures loaded && old(InSync()) ==> cache == old(cache)
      ensures !loaded ==> cache == []
    {
      cache := [];
      if file.None? {
        return true;
      }
      if * {
        return false;
      }
      cache := Extract(Unified(file.value));
      ExtractedPlain(file.value);
      loaded := true;
    }

    /** One change of the cache, saved or taken back. */
    method Change(changed: seq<Prompt>) returns (error: Option<EditError>)
      requires Valid() && DistinctKeys(changed)
      modifies this
      ensures Valid()
      ensures error.None? ==> cache == changed && file == Some(Rendered(changed))
      ensures error.Some? ==> error == Some(SaveFailed) && cache == old(cache) && file == old(file)
      ensures old(InSync()) && (error.None? ==> Storable(changed)) ==> InSync()
    {
      var oldCache := cache;
      cache := changed;
      var saved := Save();
      if !saved {
        cache := oldCache;
        return Some(SaveFailed);
      }
      if Storable(changed) {
        ExtractRendered(changed);
      }
      error := None;
    }

    /** After a create, whether it was saved or not, a reload gives the cache, provided what
        was saved is storable. */
    method CreatePrompt(key: string, content: string) returns (error: Option<EditError>)
      requires Valid()
      modifies this
      ensures Valid()
      ensures error.None? ==> cache == old(cache) + [Prompt(key, content)]
      ensures error.None? ==> !HasKey(old(cache), key) && cache == Assign(old(cache), Prompt(key, content))
      ensures error.Some? ==> cache == old(cache) && file == old(file)
      ensures error == Some(AlreadyExists) <==> HasKey(old(cache), key)
      ensures old(InSync()) && (error.None? ==> Storable(cache)) ==> InSync()
    {
      if HasKey(cache, key) {
        return Some(AlreadyExists);
      }
      AssignNew(cache, Prompt(key, content));
      AssignDistinct(cache, Prompt(key, content));
      error := Change(Assign(cache, Prompt(key, content)));
    }

    method UpdatePrompt(key: string, content: string) returns (error: Option<EditError>)
      requires Valid()
      modifies this
      ensures Valid()
      ensures error.None? ==> Updated(old(cache), cache, key, content)
      ensures error.None? ==> HasKey(old(cache), key) && cache == Assign(old(cache), Prompt(key, content))
      ensures error.Some? ==> cache == old(cache) && file == old(file)
      ensures error == Some(DoesNotExist) <==> !HasKey(old(cache), key)
      ensures old(InSync()) && (error.None? ==> Storable(cache)) ==> InSync()
    {
      if !HasKey(cache, key) {
        return Some(DoesNotExist);
      }
      AssignKnown(cache, key, content);
      AssignDistinct(cache, Prompt(key, content));
      error := Change(Assign(cache, Prompt(key, content)));
    }

    /** A delete needs no proviso but that the cache was storable: what is left still is. */
    method DeletePrompt(key: string) returns (error: Option<EditError>)
      requires Valid()
      modifies this
      ensures Valid()
      ensures error.None? ==> Deleted(old(cache), cache, key)
      ensures error.None? ==> HasKey(old(cache), key) && cache == Lacking(old(cache), key)
      ensures error.Some? ==> cache == old(cache) && file == old(file)
      ensures error == Some(DoesNotExist) <==> !HasKey(old(cache), key)
      ensures old(InSync()) && old(Storable(cache)) ==> InSync() && Storable(cache)
    {
      if !HasKey(cache, key) {
        return Some(DoesNotExist);
      }
      LackingIs(cache, key);
      DeletedDistinct(cache, Lacking(cache, key), key);
      if Storable(cache) {
        LackingStorable(cache, key);
      }
      error := Change(Lacking(cache, key));
    }
  }

  lemma {:induction false} LackingMembers(prompts: seq<Prompt>, key: string, p: Prompt)
    ensures p in Lacking(prompts, key) <==> p in prompts && p.key != key
  {
    if prompts != [] {
      LackingMembers(prompts[1..], key, p);
    }
  }

  lemma {:induction false} LackingStorable(prompts: seq<Prompt>, key: string)
    requires Storable(prompts)
    ensures Storable(Lacking(prompts, key))
  {
    if prompts != [] {
      var p, rest := prompts[0], prompts[1..];
      assert prompts == [p] + rest;
      SeparableRest(p, rest);
      forall x | x in rest ensures x in prompts && x.key != p.key {}
      assert DistinctKeys(rest);
      LackingStorable(rest, key);
      var left := Lacking(rest, key);
      forall x | x in left ensures x.key != p.key {
        LackingMembers(rest, key, x);
      }
      if p.key != key {
        if rest == [] {
          assert left == [];
        }
        SeparableRest(p, left);
      }
    }
  }
}
