/** String operations of the source language, over sequences of code points. */
module Text {

  /** The white space that `str.strip`, `str.isspace` and `\s` agree on. */
  predicate IsSpace(c: char) {
    || '\t' <= c <= '\r'
    || '\U{1c}' <= c <= ' '
    || c == '\U{85}' || c == '\U{a0}' || c == '\U{1680}'
    || '\U{2000}' <= c <= '\U{200a}'
    || c == '\U{2028}' || c == '\U{2029}' || c == '\U{202f}'
    || c == '\U{205f}' || c == '\U{3000}'
  }

  /** `part` stands in `text` at position `i`. */
  predicate At(text: string, i: int, part: string) {
    0 <= i <= |text| - |part| && text[i..i + |part|] == part
  }

  /** `part in text`: the search tries every position from the left. */
  predicate Contains(text: string, part: string)
    decreases |text|
  {
    At(text, 0, part) || (text != "" && Contains(text[1..], part))
  }

  lemma AtShift(text: string, i: nat, part: string)
    requires text != ""
    ensures At(text[1..], i, part) <==> At(text, i + 1, part)
  {
    if i + |part| <= |text| - 1 {
      assert text[1..][i..i + |part|] == text[i + 1..i + 1 + |part|];
    }
  }

  /** The search succeeds exactly when `part` stands somewhere in `text`. */
  lemma {:induction false} ContainsMeaning(text: string, part: string)
    ensures Contains(text, part) <==> exists i :: At(text, i, part)
    decreases |text|
  {
    if text != "" {
      ContainsMeaning(text[1..], part);
      if i :| At(text, i, part) && i > 0 {
        AtShift(text, i - 1, part);
      }
      if i :| At(text[1..], i, part) {
        AtShift(text, i, part);
      }
    }
  }

  function LStrip(s: string): string {
    if s != "" && IsSpace(s[0]) then LStrip(s[1..]) else s
  }

  function RStrip(s: string): string {
    if s != "" && IsSpace(s[|s| - 1]) then RStrip(s[..|s| - 1]) else s
  }

  function Strip(s: string): string {
    RStrip(LStrip(s))
  }

  predicate AllSpace(s: string) {
    forall i | 0 <= i < |s| :: IsSpace(s[i])
  }

  /** No white space at either end. */
  predicate Stripped(s: string) {
    s != "" ==> !IsSpace(s[0]) && !IsSpace(s[|s| - 1])
  }

  lemma LStripUnique(pad: string, s: string)
    requires AllSpace(pad)
    requires s != "" ==> !IsSpace(s[0])
    ensures LStrip(pad + s) == s
  {
    if pad == "" {
      assert pad + s == s;
    } else {
      assert (pad + s)[1..] == pad[1..] + s;
      LStripUnique(pad[1..], s);
    }
  }

  lemma RStripUnique(s: string, pad: string)
    requires AllSpace(pad)
    requires s != "" ==> !IsSpace(s[|s| - 1])
    ensures RStrip(s + pad) == s
  {
    if pad == "" {
      assert s + pad == s;
    } else {
      assert (s + pad)[..|s + pad| - 1] == s + pad[..|pad| - 1];
      RStripUnique(s, pad[..|pad| - 1]);
    }
  }

  /** Stripping recovers exactly the stripped text between two runs of white space. */
  lemma StripUnique(left: string, s: string, right: string)
    requires AllSpace(left) && AllSpace(right) && Stripped(s)
    ensures Strip(left + s + right) == s
  {
    if s == "" {
      assert left + s + right == (left + right) + s;
      LStripUnique(left + right, s);
    } else {
      assert left + s + right == left + (s + right);
      LStripUnique(left, s + right);
      RStripUnique(s, right);
    }
  }

  // ------------------------------------------------------------------- lines

  /** `"\n".join(lines)`. */
  function Join(lines: seq<string>): string {
    if lines == [] then ""
    else if |lines| == 1 then lines[0]
    else Join(lines[..|lines| - 1]) + "\n" + lines[|lines| - 1]
  }

  lemma {:induction false} JoinAppend(xs: seq<string>, ys: seq<string>)
    requires xs != [] && ys != []
    ensures Join(xs + ys) == Join(xs) + "\n" + Join(ys)
    decreases |ys|
  {
    var n := |ys| - 1;
    assert (xs + ys)[..|xs + ys| - 1] == xs + ys[..n];
    if n > 0 {
      JoinAppend(xs, ys[..n]);
      assert Join(xs) + "\n" + Join(ys[..n]) + "\n" + ys[n] == Join(xs) + "\n" + (Join(ys[..n]) + "\n" + ys[n]);
    } else {
      assert xs + ys[..n] == xs;
    }
  }

  /** Cut at every break character: one part more than there are breaks. */
  function Split(s: string, isBreak: char -> bool): (parts: seq<string>)
    ensures |parts| > 0
  {
    if s == "" then [""]
    else
      var n := |s| - 1;
      var parts := Split(s[..n], isBreak);
      if isBreak(s[n]) then parts + [""] else Grow(parts, s[n])
  }

  /** One character more in the last part. */
  function Grow(parts: seq<string>, c: char): (grown: seq<string>)
    requires parts != []
    ensures |grown| == |parts|
  {
    parts[..|parts| - 1] + [parts[|parts| - 1] + [c]]
  }

  lemma GrowAppend(xs: seq<string>, ys: seq<string>, c: char)
    requires ys != []
    ensures Grow(xs + ys, c) == xs + Grow(ys, c)
  {
  }

  lemma SplitStep(s: string, c: char, isBreak: char -> bool)
    ensures Split(s + [c], isBreak) == if isBreak(c) then Split(s, isBreak) + [""] else Grow(Split(s, isBreak), c)
  {
    assert (s + [c])[..|s|] == s;
  }

  lemma {:induction false} SplitAppend(a: string, br: char, b: string, isBreak: char -> bool)
    requires isBreak(br)
    ensures Split(a + [br] + b, isBreak) == Split(a, isBreak) + Split(b, isBreak)
    decreases |b|
  {
    if b == "" {
      assert a + [br] + b == a + [br];
      SplitStep(a, br, isBreak);
    } else {
      var n := |b| - 1;
      var c, rest := b[n], b[..n];
      assert a + [br] + b == (a + [br] + rest) + [c];
      assert b == rest + [c];
      SplitAppend(a, br, rest, isBreak);
      SplitStep(a + [br] + rest, c, isBreak);
      SplitStep(rest, c, isBreak);
      GrowAppend(Split(a, isBreak), Split(rest, isBreak), c);
      assert Split(a, isBreak) + Split(rest, isBreak) + [""] == Split(a, isBreak) + (Split(rest, isBreak) + [""]);
    }
  }

  /** Every part is made of characters of the text, without the breaks. */
  lemma {:induction false} SplitParts(s: string, isBreak: char -> bool, part: string)
    requires part in Split(s, isBreak)
    ensures forall c | c in part :: c in s && !isBreak(c)
  {
    if s != "" {
      var n := |s| - 1;
      var parts := Split(s[..n], isBreak);
      assert s == s[..n] + [s[n]];
      if part in parts {
        SplitParts(s[..n], isBreak, part);
      } else if !isBreak(s[n]) {
        assert parts[|parts| - 1] in parts;
        SplitParts(s[..n], isBreak, parts[|parts| - 1]);
      }
    }
  }

  /** A text without breaks is its only part. */
  lemma {:induction false} SplitWhole(s: string, isBreak: char -> bool)
    requires forall c | c in s :: !isBreak(c)
    ensures Split(s, isBreak) == [s]
  {
    if s != "" {
      var n := |s| - 1;
      assert s == s[..n] + [s[n]];
      SplitWhole(s[..n], isBreak);
    }
  }

  lemma JoinMore(parts: seq<string>, c: char)
    requires parts != []
    ensures Join(Grow(parts, c)) == Join(parts) + [c]
    ensures Join(parts + [""]) == Join(parts) + "\n"
  {
    var n := |parts| - 1;
    assert (parts + [""])[..|parts|] == parts;
    assert Grow(parts, c)[..n] == parts[..n];
    if n > 0 {
      assert Join(parts[..n]) + "\n" + (parts[n] + [c]) == Join(parts[..n]) + "\n" + parts[n] + [c];
    }
  }

  /** Cut at line feeds and joined again a text is what it was. */
  lemma {:induction false} JoinSplit(s: string, isBreak: char -> bool)
    requires forall c :: isBreak(c) <==> c == '\n'
    ensures Join(Split(s, isBreak)) == s
  {
    if s != "" {
      var n := |s| - 1;
      JoinSplit(s[..n], isBreak);
      JoinMore(Split(s[..n], isBreak), s[n]);
      assert s == s[..n] + [s[n]];
    }
  }
}
