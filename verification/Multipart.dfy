// The multipart body: which boundary a reader chooses, and the parts it cuts the body into.
module Multipart {
  import opened Wrappers
  import opened Text
  import opened MailMessage
  import opened MailRoundTrip

  // ---- the boundary chosen -------------------------------------------------------------------------

  // Every dash is followed by something else.
  predicate NoDoubleDash(y: string) {
    forall k :: 0 <= k < |y| && y[k] == '-' ==> k + 1 < |y| && y[k + 1] != '-'
  }

  predicate IsBoundary(b: string) {
    b != "" && AllIn(b, IsNameChar) && b[0] != '-' && NoDoubleDash(b)
  }

  // The printer draws twelve hexadecimal digits.
  predicate IsDrawn(hex: string) {
    |hex| == 12 && AllIn(hex, c => '0' <= c <= '9' || 'a' <= c <= 'f')
  }

  lemma DrawnBoundary(hex: string)
    requires IsDrawn(hex)
    ensures IsBoundary("nb-" + hex)
  {
    var b := "nb-" + hex;
    assert forall k :: 3 <= k < |b| ==> b[k] == hex[k - 3];
  }

  lemma {:induction false} UntilStop(v: string, tail: string, stop: char -> bool)
    requires (forall c <- v :: !stop(c)) && tail != "" && stop(tail[0])
    ensures Until(v + tail, stop) == v
  {
    if v == "" {
      assert v + tail == tail;
    } else {
      assert (v + tail)[0] == v[0] && v[0] in v && (v + tail)[1..] == v[1..] + tail;
      UntilStop(v[1..], tail, stop);
    }
  }

  lemma BoundaryFound(b: string)
    requires IsBoundary(b)
    ensures SearchBoundary(MultipartLine(b).Printed()) == b
  {
    hide StartsFolded, Unquoted, LStripBy;
    PrintedBoundary(b);
    BoundaryRead(b);
    var s2 := "boundary=" + ("\"" + (b + "\""));
    var s1 := "multipart/mixed;" + (" " + s2);
    var s0 := "Content-Type:" + (" " + s1);
    KeysMatch(" " + s1, " " + s2, "\"" + (b + "\""));
    SkipBlank(s1);
    SkipBlank(s2);
    assert BoundaryAt(s0) == b by {
      assert s0[13..] == " " + s1 && s1[16..] == " " + s2 && s2[9..] == "\"" + (b + "\"");
    }
  }

  lemma PrintedBoundary(b: string)
    ensures MultipartLine(b).Printed()
            == "Content-Type:" + (" " + ("multipart/mixed;" + (" " + ("boundary=" + ("\"" + (b + "\""))))))
  {
    var v := b + "\"";
    assert "multipart/mixed; boundary=\"" == "multipart/mixed;" + (" " + ("boundary=" + "\""));
    assert " " + ("multipart/mixed; boundary=\"" + b + "\"")
           == " " + ("multipart/mixed;" + (" " + ("boundary=" + ("\"" + v))));
  }

  lemma BoundaryRead(b: string)
    requires IsBoundary(b)
    ensures Unquoted("\"" + (b + "\""), EndsBoundary) == b
  {
    assert ("\"" + (b + "\""))[1..] == b + "\"";
    forall i | 0 <= i < |b| ensures !EndsBoundary(b[i]) {
      assert IsNameChar(b[i]);
    }
    UntilStop(b, "\"", EndsBoundary);
  }

  lemma SkipBlank(s: string)
    requires s != "" && !IsSpace(s[0])
    ensures LStripBy(" " + s, IsSpace) == s
  {
    assert (" " + s)[1..] == s;
  }

  lemma KeysMatch(a: string, b: string, c: string)
    ensures StartsFolded("Content-Type:" + a, "content-type:")
    ensures StartsFolded("multipart/mixed;" + b, "multipart/mixed;")
    ensures StartsFolded("boundary=" + c, "boundary=")
  {
  }

  lemma BoundaryNeedsKey(s: string)
    requires !StartsFolded(s, "content-type:")
    ensures BoundaryAt(s) == ""
  {
    hide StartsFolded;
  }

  lemma FoldedAcross(t: string, s: string, key: string)
    requires '\n' !in key
    ensures StartsFolded(t + "\n" + s, key) <==> StartsFolded(t, key)
  {
    var all := t + "\n" + s;
    assert forall i :: 0 <= i < |t| ==> all[i] == t[i];
    assert all[|t|] == '\n' && FoldChar('\n') == '\n';
    if |t| < |key| {
      assert key[|t|] in key;
    }
  }

  lemma {:induction false} LStripAcross(w: string, s: string)
    requires s != "" && !IsSpace(s[0])
    ensures LStripBy(w + "\n" + s, IsSpace) == if LStripBy(w, IsSpace) != "" then LStripBy(w, IsSpace) + "\n" + s else s
  {
    var all := w + "\n" + s;
    if w == "" {
      assert all[1..] == s;
    } else if IsSpace(w[0]) {
      assert all[1..] == w[1..] + "\n" + s;
      LStripAcross(w[1..], s);
    }
  }

  lemma {:induction false} UntilAcross(w: string, s: string)
    ensures Until(w + "\n" + s, EndsBoundary) == Until(w, EndsBoundary)
  {
    var all := w + "\n" + s;
    if w != "" {
      assert all[1..] == w[1..] + "\n" + s;
      UntilAcross(w[1..], s);
    }
  }

  lemma UnquotedAcross(w: string, s: string)
    ensures Unquoted(w + "\n" + s, EndsBoundary) == Unquoted(w, EndsBoundary)
  {
    hide Until;
    UntilAcross(w, s);
    if w != "" {
      assert (w + "\n" + s)[1..] == w[1..] + "\n" + s;
      UntilAcross(w[1..], s);
    } else {
      assert (w + "\n" + s)[0] == '\n';
    }
  }

  // A line start that cannot continue a pattern broken off at the end of the line before.
  predicate StartsAfresh(s: string) {
    s != "" && !IsSpace(s[0]) && !StartsFolded(s, "multipart/mixed;") && !StartsFolded(s, "boundary=")
  }

  lemma KeysHaveNoNewline()
    ensures '\n' !in "content-type:" && '\n' !in "multipart/mixed;" && '\n' !in "boundary="
  {
  }

  // No match begins in one line and ends in the next.
  lemma BoundaryAtAcross(t: string, s: string)
    requires StartsAfresh(s)
    ensures BoundaryAt(t + "\n" + s) == BoundaryAt(t)
  {
    hide StartsFolded, LStripBy, Unquoted;
    var all := t + "\n" + s;
    KeysHaveNoNewline();
    FoldedAcross(t, s, "content-type:");
    if StartsFolded(t, "content-type:") {
      FoldedLength(t, "content-type:");
      var w := t[13..];
      assert all[13..] == w + "\n" + s;
      LStripAcross(w, s);
      NothingFolded();
      var u := LStripBy(w, IsSpace);
      if u != "" {
        FoldedAcross(u, s, "multipart/mixed;");
        if StartsFolded(u, "multipart/mixed;") {
          FoldedLength(u, "multipart/mixed;");
          BoundaryAfterType(u, s);
        }
      }
    }
  }

  lemma NothingFolded()
    ensures !StartsFolded("", "multipart/mixed;") && !StartsFolded("", "boundary=")
  {
  }

  lemma FoldedLength(s: string, key: string)
    requires StartsFolded(s, key)
    ensures |s| >= |key|
  {
  }

  lemma BoundaryAfterType(u: string, s: string)
    requires StartsAfresh(s) && |u| >= 16
    ensures AfterType((u + "\n" + s)[16..]) == AfterType(u[16..])
  {
    hide AfterType, StartsAfresh;
    assert (u + "\n" + s)[16..] == u[16..] + "\n" + s;
    AfterTypeAcross(u[16..], s);
  }

  lemma AfterTypeAcross(w: string, s: string)
    requires StartsAfresh(s)
    ensures AfterType(w + "\n" + s) == AfterType(w)
  {
    hide StartsFolded, LStripBy, Unquoted;
    LStripAcross(w, s);
    NothingFolded();
    KeysHaveNoNewline();
    var v := LStripBy(w, IsSpace);
    if v != "" {
      FoldedAcross(v, s, "boundary=");
      if StartsFolded(v, "boundary=") {
        FoldedLength(v, "boundary=");
        assert (v + "\n" + s)[9..] == v[9..] + "\n" + s;
        UnquotedAcross(v[9..], s);
      }
    }
  }

  // The boundary is searched in the whole header block, and lines before the Content-Type line go first.
  lemma {:induction false} FirstBoundary(t: string, s: string)
    requires StartsAfresh(s)
    ensures SearchBoundary(t + "\n" + s) == if SearchBoundary(t) != "" then SearchBoundary(t) else SearchBoundary(s)
  {
    hide BoundaryAt, StartsAfresh;
    var all := t + "\n" + s;
    BoundaryAtAcross(t, s);
    if t == "" {
      assert all[1..] == s;
    } else {
      assert all[1..] == t[1..] + "\n" + s;
      FirstBoundary(t[1..], s);
    }
  }

  // What stands where a boundary is chosen.
  lemma {:induction false} ChosenHasNoStop(s: string)
    ensures forall c <- SearchBoundary(s) :: !EndsBoundary(c)
  {
    if BoundaryAt(s) != "" {
      UnquotedHasNoStop(s);
    } else if s != "" {
      ChosenHasNoStop(s[1..]);
    }
  }

  lemma UnquotedHasNoStop(s: string)
    ensures forall c <- BoundaryAt(s) :: !EndsBoundary(c)
  {
    hide LStripBy, Unquoted;
    if BoundaryAt(s) != "" {
      var t := LStripBy(s[13..], IsSpace);
      var u := LStripBy(t[16..], IsSpace);
      ValueHasNoStop(u[9..], EndsBoundary);
    }
  }

  lemma ValueHasNoStop(s: string, stop: char -> bool)
    ensures forall c <- Unquoted(s, stop) :: !stop(c)
  {
    UntilHasNoStop(s, stop);
    if s != "" {
      UntilHasNoStop(s[1..], stop);
    }
  }

  lemma {:induction false} UntilHasNoStop(s: string, stop: char -> bool)
    ensures forall c <- Until(s, stop) :: !stop(c)
  {
    if s != "" && !stop(s[0]) {
      UntilHasNoStop(s[1..], stop);
    }
  }

  // ---- finding separators ----------------------------------------------------------------------------

  // No separator starts in a text without two dashes in a row.
  lemma {:induction false} SkipDashless(y: string, s: string, sep: string)
    requires NoDoubleDash(y) && "--" <= sep
    ensures Find(y + s, sep) == if Find(s, sep) < 0 then -1 else |y| + Find(s, sep)
  {
    if y == "" {
      assert y + s == s;
    } else {
      var all := y + s;
      assert all[0] == y[0] && all[1..] == y[1..] + s && sep[0] == sep[1] == '-';
      if y[0] == '-' {
        assert all[1] == y[1] != '-';
      }
      SkipDashless(y[1..], s, sep);
    }
  }

  // Nor in a section that does not contain it, its line ends included.
  lemma SkipSection(y: string, text: string, rest: string, sep: string)
    requires NoDoubleDash(y) && "--" <= sep && '\n' !in sep && Find(text, sep) < 0
    ensures Find(y + "\n" + text + "\n" + rest, sep)
            == if Find(rest, sep) < 0 then -1 else |y| + |text| + 2 + Find(rest, sep)
  {
    hide Find, NoDoubleDash;
    var tail := text + ['\n'] + rest;
    assert sep[0] in sep;
    FindBeyond(text, '\n', rest, sep);
    FindSkip("\n", tail, sep);
    SkipDashless(y, "\n" + tail, sep);
    assert y + "\n" + text + "\n" + rest == y + ("\n" + tail);
  }

  lemma TooShort(y: string, sep: string)
    requires NoDoubleDash(y) && "--" <= sep && |sep| > 2
    ensures Find(y + "--", sep) == -1
  {
    assert "--"[1..] == "-" && "-"[1..] == "";
    assert Find("", sep) == -1 && Find("-", sep) == -1 && Find("--", sep) == -1;
    SkipDashless(y, "--", sep);
  }

  // ---- the parts between the boundaries ----------------------------------------------------------------

  // Cut at x, each piece keeps the rest y of the boundary x + y before it.
  function Pieces(y: string, sections: seq<Section>): seq<string> {
    if sections == [] then [] else [y + "\n" + sections[0].Printed() + "\n"] + Pieces(y, sections[1..])
  }

  lemma SplitOnce(y: string, text: string, sep: string, rest: string)
    requires NoDoubleDash(y) && "--" <= sep && '\n' !in sep && Find(text, sep) < 0
    ensures SplitOn(y + "\n" + text + "\n" + (sep + rest), sep) == [y + "\n" + text + "\n"] + SplitOn(rest, sep)
  {
    hide NoDoubleDash;
    var front := y + "\n" + text + "\n";
    var s := front + (sep + rest);
    SkipSection(y, text, sep + rest, sep);
    assert sep <= sep + rest;
    assert s[..|front|] == front && s[|front| + |sep|..] == rest;
  }

  lemma {:induction false} SplitEnclosed(x: string, y: string, sections: seq<Section>)
    requires x != "" && '\n' !in x && NoDoubleDash(y) && forall s <- sections :: !Contains(s.Printed(), "--" + x)
    ensures SplitOn(y + (Enclosed(x + y, sections) + "--"), "--" + x) == Pieces(y, sections) + [y + "--"]
  {
    hide Section.Printed, SplitOn, Find, NoDoubleDash;
    var sep, b := "--" + x, x + y;
    if sections == [] {
      assert y + (Enclosed(b, sections) + "--") == y + "--";
      assert SplitOn(y + "--", sep) == [y + "--"] by { SplitNone(y, sep); }
      assert Pieces(y, []) + [y + "--"] == [y + "--"];
    } else {
      var text := sections[0].Printed();
      var rest := y + (Enclosed(b, sections[1..]) + "--");
      assert sections[0] in sections;
      SplitOnce(y, text, sep, rest);
      assert y + (Enclosed(b, sections) + "--") == y + "\n" + text + "\n" + (sep + rest) by {
        EnclosedUnfolds(x, y, sections);
      }
      SplitEnclosed(x, y, sections[1..]);
      assert Pieces(y, sections) + [y + "--"] == [y + "\n" + text + "\n"] + (Pieces(y, sections[1..]) + [y + "--"]);
    }
  }

  lemma EnclosedUnfolds(x: string, y: string, sections: seq<Section>)
    requires sections != []
    ensures y + (Enclosed(x + y, sections) + "--")
            == y + "\n" + sections[0].Printed() + "\n" + ("--" + x + (y + (Enclosed(x + y, sections[1..]) + "--")))
  {
    hide Section.Printed;
    var text, rest := sections[0].Printed(), Enclosed(x + y, sections[1..]);
    assert Enclosed(x + y, sections) == "\n" + text + "\n--" + (x + y) + rest;
    assert "\n--" == "\n" + "--";
  }

  lemma SplitNone(y: string, sep: string)
    requires NoDoubleDash(y) && "--" <= sep && |sep| > 2
    ensures SplitOn(y + "--", sep) == [y + "--"]
  {
    hide Find;
    TooShort(y, sep);
  }

  lemma SplitMultipart(x: string, y: string, sections: seq<Section>)
    requires x != "" && '\n' !in x && NoDoubleDash(y) && forall s <- sections :: !Contains(s.Printed(), "--" + x)
    ensures SplitOn(MultipartText(x + y, sections), "--" + x) == [""] + (Pieces(y, sections) + [y + "--"])
  {
    hide Enclosed, Section.Printed, NoDoubleDash;
    var sep := "--" + x;
    var text := MultipartText(x + y, sections);
    var rest := y + (Enclosed(x + y, sections) + "--");
    assert text == sep + rest;
    assert sep <= text && text[|sep|..] == rest && text[..0] == "";
    SplitEnclosed(x, y, sections);
  }

  // ---- one part ------------------------------------------------------------------------------------

  predicate EndsSolid(lines: seq<Line>) {
    Block(lines) != "" && !IsEdge(Block(lines)[|Block(lines)| - 1])
  }

  predicate ReadableSection(s: Section) {
    s.lines != [] && ValidLines(s.lines) && EndsSolid(s.lines)
  }

  function ReadSection(s: Section): Part {
    (Dict(s.lines), RStripBy(s.content, IsEdge))
  }

  // A header block after what is left of a boundary.
  function Head(y: string, block: string): string {
    if y == "" then block else y + "\n" + block
  }

  lemma StripAround(front: string, block: string, content: string, back: string)
    requires block != "" && !IsEdge(block[0]) && !IsEdge(block[|block| - 1])
    requires front in {"", "\n"} && back in {"", "\n"}
    ensures StripBy(front + (block + "\n\n" + content) + back, IsEdge)
            == if RStripBy(content, IsEdge) == "" then block else block + "\n\n" + RStripBy(content, IsEdge)
  {
    hide RStripBy, LStripBy;
    var text := block + "\n\n" + content;
    assert front + text + back == front + (text + back);
    assert (text + back)[0] == text[0] == block[0];
    LeadingGone(front, text + back);
    TrailingGone(block, content, back);
  }

  lemma LeadingGone(front: string, t: string)
    requires front in {"", "\n"} && t != "" && !IsEdge(t[0])
    ensures LStripBy(front + t, IsEdge) == t
  {
    LStripConcat(front, t, IsEdge);
  }

  lemma TrailingGone(block: string, content: string, back: string)
    requires block != "" && !IsEdge(block[|block| - 1]) && back in {"", "\n"}
    ensures RStripBy((block + "\n\n" + content) + back, IsEdge)
            == if RStripBy(content, IsEdge) == "" then block else block + "\n\n" + RStripBy(content, IsEdge)
  {
    hide RStripBy;
    StripNewlines(block);
    NothingToStrip();
    RStripConcat(block + "\n\n" + content, back, IsEdge);
    RStripConcat(block + "\n\n", content, IsEdge);
    RStripConcat(block, "\n\n", IsEdge);
  }

  lemma NothingToStrip()
    ensures RStripBy("", IsEdge) == ""
  {
  }

  lemma StripNewlines(block: string)
    requires block != "" && !IsEdge(block[|block| - 1])
    ensures RStripBy("\n", IsEdge) == "" && RStripBy("\n\n", IsEdge) == "" && RStripBy(block, IsEdge) == block
  {
    assert "\n\n"[..1] == "\n" && "\n"[..0] == "";
  }

  lemma NamesHaveNoNewline(y: string)
    requires AllIn(y, IsNameChar)
    ensures '\n' !in y
  {
    forall i | 0 <= i < |y| ensures y[i] != '\n' {
      assert IsNameChar(y[i]);
    }
  }

  // The rest of a boundary on the line before is no header and no blank line.
  lemma HeadIsRead(y: string, lines: seq<Line>)
    requires AllIn(y, IsNameChar) && lines != [] && ValidLines(lines)
    ensures Headers(Head(y, Block(lines)), map[]) == Dict(lines)
  {
    hide Block, Dict;
    BlockIsRead(lines);
    if y != "" {
      JunkLine(y, Block(lines));
    }
  }

  lemma JunkLine(y: string, rest: string)
    requires y != "" && AllIn(y, IsNameChar)
    ensures Headers(y + "\n" + rest, map[]) == Headers(rest, map[])
  {
    var s := y + "\n" + rest;
    NoHeaderIn(y, "\n" + rest);
    assert s == y + ("\n" + rest);
    NamesHaveNoNewline(y);
    BeforeStop(y, "\n" + rest, '\n');
    assert s[|y|..] == "\n" + rest && NextLine("\n" + rest) == rest;
  }

  lemma {:induction false} NoHeaderIn(y: string, rest: string)
    requires AllIn(y, IsNameChar) && (rest == "" || (rest[0] == '\n'))
    ensures NameLength(y + rest) == |y| && HeaderAt(y + rest) == None
  {
    if y == "" {
      assert y + rest == rest;
    } else {
      assert (y + rest)[1..] == y[1..] + rest;
      NoHeaderIn(y[1..], rest);
    }
  }

  lemma HeadBlank(y: string, lines: seq<Line>, rest: string)
    requires AllIn(y, IsNameChar) && lines != [] && ValidLines(lines)
    ensures Find(Head(y, Block(lines)) + "\n\n" + rest, "\n\n") == |Head(y, Block(lines))|
  {
    hide Block, Find;
    FindBlank(lines, rest);
    if y != "" {
      var more := Block(lines) + "\n\n" + rest;
      NamesHaveNoNewline(y);
      BlockStart(lines);
      OneNewline(more);
      FindSkip(y, "\n" + more, "\n\n");
      assert y + ("\n" + more) == Head(y, Block(lines)) + "\n\n" + rest;
    }
  }

  // A block followed by a first blank line contains none.
  lemma {:induction false} NoBlank(block: string)
    requires Find(block + "\n\n" + "", "\n\n") == |block|
    ensures Find(block, "\n\n") < 0
  {
    var s := block + "\n\n" + "";
    if |block| >= 2 {
      assert s[..2] == block[..2];
    }
    assert !("\n\n" <= block);
    if block != "" {
      assert s[1..] == block[1..] + "\n\n" + "";
      NoBlank(block[1..]);
    }
  }

  lemma HeadShape(y: string, lines: seq<Line>)
    requires AllIn(y, IsNameChar) && lines != [] && ValidLine(lines[0]) && EndsSolid(lines)
    ensures var h := Head(y, Block(lines));
      h != "" && !IsEdge(h[0]) && !IsEdge(h[|h| - 1]) && ':' in h
  {
    var block := Block(lines);
    BlockStart(lines);
    assert lines[0].Printed()[|lines[0].name|] == ':';
    assert block[|lines[0].name|] == ':';
    if y != "" {
      assert IsNameChar(y[0]);
      assert Head(y, block)[|y| + 1 + |lines[0].name|] == ':';
    }
  }

  lemma NotDashes(h: string, rest: string)
    requires ':' in h
    ensures h + rest != "" && h + rest != "--" && h != "--"
  {
    assert ':' in h + rest && ':' !in "--";
  }

  lemma PartStripped(y: string, lines: seq<Line>, content: string, back: string)
    requires AllIn(y, IsNameChar) && lines != [] && ValidLines(lines) && EndsSolid(lines) && back in {"", "\n"}
    ensures var h, body := Head(y, Block(lines)), RStripBy(content, IsEdge);
      StripBy(y + "\n" + (Block(lines) + "\n\n" + content) + back, IsEdge)
      == if body == "" then h else h + "\n\n" + body
  {
    hide Block, StripBy, RStripBy, EndsSolid;
    var h := Head(y, Block(lines));
    HeadShape(y, lines);
    var front := if y == "" then "\n" else "";
    assert y + "\n" + (Block(lines) + "\n\n" + content) + back == front + (h + "\n\n" + content) + back;
    StripAround(front, h, content, back);
  }

  lemma PartSplit(y: string, lines: seq<Line>, body: string)
    requires AllIn(y, IsNameChar) && lines != [] && ValidLines(lines) && EndsSolid(lines)
    ensures var h := Head(y, Block(lines));
      var p := if body == "" then h else h + "\n\n" + body;
      p != "" && p != "--" && SplitFirst(p, "\n\n") == (h, body)
  {
    hide Block, Find, EndsSolid, Head;
    var h := Head(y, Block(lines));
    HeadShape(y, lines);
    if body == "" {
      NotDashes(h, "");
      HeadBlank(y, lines, "");
      NoBlank(h);
    } else {
      NotDashes(h, "\n\n" + body);
      HeadBlank(y, lines, body);
      var p := h + "\n\n" + body;
      assert p == h + ("\n\n" + body) && p[..|h|] == h && p[|h| + 2..] == body;
    }
  }

  // A part is read whatever is left of the boundary before it.
  lemma PartIsRead(y: string, lines: seq<Line>, content: string, back: string)
    requires AllIn(y, IsNameChar) && lines != [] && ValidLines(lines) && EndsSolid(lines) && back in {"", "\n"}
    ensures PartOf(y + "\n" + (Block(lines) + "\n\n" + content) + back)
            == Some((Dict(lines), RStripBy(content, IsEdge)))
  {
    hide Block, Dict, Headers, StripBy, RStripBy, EndsSolid, Head, SplitFirst;
    PartStripped(y, lines, content, back);
    PartSplit(y, lines, RStripBy(content, IsEdge));
    HeadIsRead(y, lines);
  }

  // ---- all parts -------------------------------------------------------------------------------------

  function ReadSections(sections: seq<Section>): seq<Part> {
    if sections == [] then [] else [ReadSection(sections[0])] + ReadSections(sections[1..])
  }

  // What the closing boundary leaves: nothing, or a part without headers.
  function Closing(y: string): seq<Part> {
    if y == "" then [] else [(map[], "")]
  }

  lemma ClosingIsRead(y: string)
    requires AllIn(y, IsNameChar)
    ensures PartOf(y + "--") == if y == "" then None else Some((map[], ""))
  {
    hide Find, Headers, StripBy, AllIn;
    var s := y + "--";
    ClosingIsSolid(y);
    if y == "" {
      assert s == "--";
    } else {
      NoHeadersIn(s);
      assert |s| > 2;
    }
  }

  lemma ClosingIsSolid(y: string)
    requires AllIn(y, IsNameChar)
    ensures AllIn(y + "--", IsNameChar) && StripBy(y + "--", IsEdge) == y + "--"
  {
    var s := y + "--";
    assert IsNameChar(s[0]) && s[|s| - 1] == '-';
  }

  lemma NoHeadersIn(s: string)
    requires AllIn(s, IsNameChar)
    ensures Find(s, "\n\n") == -1 && Headers(s, map[]) == map[]
  {
    hide Find;
    NamesHaveNoNewline(s);
    FindSkip(s, "", "\n\n");
    assert Find("", "\n\n") == -1 by { NothingFound(); }
    assert s + "" == s;
    NoHeaderIn(s, "");
    BeforeStop(s, "", '\n');
    assert Headers(s, map[]) == Headers("", map[]);
  }

  lemma NothingFound()
    ensures Find("", "\n\n") == -1
  {
  }

  lemma NoPartInNothing()
    ensures PartOf("") == None
  {
  }

  lemma {:induction false} PiecesAreRead(y: string, sections: seq<Section>)
    requires AllIn(y, IsNameChar) && forall s <- sections :: ReadableSection(s)
    ensures PartsOf(Pieces(y, sections) + [y + "--"]) == ReadSections(sections) + Closing(y)
  {
    hide PartOf, ReadSection, ReadableSection, Section.Printed, AllIn;
    if sections == [] {
      assert Pieces(y, []) + [y + "--"] == [y + "--"] && [y + "--"][1..] == [];
      ClosingIsRead(y);
    } else {
      var s := sections[0];
      assert s in sections;
      var all := Pieces(y, sections) + [y + "--"];
      assert all[0] == y + "\n" + s.Printed() + "\n" && all[1..] == Pieces(y, sections[1..]) + [y + "--"];
      assert PartOf(all[0]) == Some(ReadSection(s)) by { SectionIsRead(y, s); }
      PiecesAreRead(y, sections[1..]);
    }
  }

  lemma SectionIsRead(y: string, s: Section)
    requires AllIn(y, IsNameChar) && ReadableSection(s)
    ensures PartOf(y + "\n" + s.Printed() + "\n") == Some(ReadSection(s))
  {
    hide PartOf;
    PartIsRead(y, s.lines, s.content, "\n");
  }

  // Cut at any non-empty beginning x of its boundary, a printed multipart body gives its sections.
  lemma PartsRead(x: string, y: string, sections: seq<Section>)
    requires IsBoundary(x + y) && x != ""
    requires forall s <- sections :: ReadableSection(s) && !Contains(s.Printed(), "--" + x)
    ensures PartsOf(SplitOn(MultipartText(x + y, sections), "--" + x)) == ReadSections(sections) + Closing(y)
  {
    hide PartOf, SplitOn, MultipartText, ReadableSection, Section.Printed, Contains;
    BoundaryRest(x, y);
    SplitMultipart(x, y, sections);
    PiecesAreRead(y, sections);
    NoPartInNothing();
    var all := [""] + (Pieces(y, sections) + [y + "--"]);
    assert all[0] == "" && all[1..] == Pieces(y, sections) + [y + "--"];
  }

  lemma BoundaryRest(x: string, y: string)
    requires IsBoundary(x + y)
    ensures '\n' !in x && NoDoubleDash(y) && AllIn(y, IsNameChar)
  {
    var b := x + y;
    NamesHaveNoNewline(b);
    assert forall k :: 0 <= k < |y| ==> y[k] == b[|x| + k];
    assert forall c <- x :: c in b;
  }

  // ---- a foreign boundary ----------------------------------------------------------------------------

  // "--" + x starts neither at a boundary of which x is no beginning, nor one character later.
  lemma PastBoundary(b: string, s: string, sep: string)
    requires IsBoundary(b) && "--" <= sep && !(sep <= "--" + (b + s))
    ensures Find("--" + (b + s), sep) == if Find(b + s, sep) < 0 then -1 else 2 + Find(b + s, sep)
  {
    var all := "--" + (b + s);
    assert all[1..] == "-" + (b + s) && all[1..][1..] == b + s;
    assert sep[1] == '-' && all[1..][1] == b[0];
    assert !(sep <= all[1..]);
  }

  lemma NoBeginning(b: string, x: string, s: string)
    requires !(x <= b) && '\n' !in x && (s != "" ==> s[0] == '\n')
    ensures !("--" + x <= "--" + (b + s))
  {
    if |x| <= |b| {
      assert ("--" + x)[2..] == x && ("--" + (b + s))[..2 + |x|] == "--" + b[..|x|];
    } else if s != "" {
      assert x[|b|] in x && (b + s)[|b|] == '\n';
      assert ("--" + x)[2 + |b|] == x[|b|] && ("--" + (b + s))[2 + |b|] == '\n';
    }
  }

  lemma MultipartUnfolds(b: string, sections: seq<Section>)
    requires sections != []
    ensures MultipartText(b, sections)
            == "--" + (b + ("\n" + sections[0].Printed() + "\n" + MultipartText(b, sections[1..])))
  {
    hide Section.Printed;
    var text, rest := sections[0].Printed(), Enclosed(b, sections[1..]);
    assert Enclosed(b, sections) == "\n" + text + "\n--" + b + rest;
    assert "\n--" == "\n" + "--";
  }

  // A separator "--" + x, of which x is no beginning of the boundary, is found at most at the end.
  lemma {:induction false} ForeignFind(b: string, x: string, sections: seq<Section>)
    requires IsBoundary(b) && x != "" && '\n' !in x && !(x <= b)
    requires forall s <- sections :: !Contains(s.Printed(), "--" + x)
    ensures var text := MultipartText(b, sections);
      Find(text, "--" + x) == -1 || Find(text, "--" + x) == |text| - |b| - 4
  {
    hide Find, Section.Printed, IsBoundary, NoDoubleDash;
    var sep := "--" + x;
    assert NoDoubleDash(b) by { NoDashes(b); }
    if sections == [] {
      assert MultipartText(b, []) == "--" + (b + "--");
      ForeignEnd(b, x);
    } else {
      assert sections[0] in sections;
      ForeignFind(b, x, sections[1..]);
      MultipartUnfolds(b, sections);
      hide MultipartText;
      ForeignPast(b, x, sections[0].Printed(), MultipartText(b, sections[1..]));
    }
  }

  lemma ForeignPast(b: string, x: string, text: string, rest: string)
    requires IsBoundary(b) && '\n' !in x && !(x <= b) && !Contains(text, "--" + x)
    ensures var sep := "--" + x;
      Find("--" + (b + ("\n" + text + "\n" + rest)), sep)
      == if Find(rest, sep) < 0 then -1 else |b| + |text| + 4 + Find(rest, sep)
  {
    hide Find, IsBoundary, NoDoubleDash;
    var sep, tail := "--" + x, "\n" + text + "\n" + rest;
    assert NoDoubleDash(b) by { NoDashes(b); }
    NoBeginning(b, x, tail);
    PastBoundary(b, tail, sep);
    SkipSection(b, text, rest, sep);
    assert b + tail == b + "\n" + text + "\n" + rest;
  }

  lemma NoDashes(b: string)
    requires IsBoundary(b)
    ensures NoDoubleDash(b)
  {
  }

  lemma ForeignEnd(b: string, x: string)
    requires IsBoundary(b) && x != ""
    ensures Find("--" + (b + "--"), "--" + x) == -1 || Find("--" + (b + "--"), "--" + x) == 0
  {
    var sep, all := "--" + x, "--" + (b + "--");
    if sep <= all {
      assert Find(all, sep) == 0;
    } else {
      hide Find;
      TooShort(b, sep);
      PastBoundary(b, "--", sep);
    }
  }

  // One character makes no part with an attachment.
  lemma ShortPiece(t: string)
    requires |t| <= 1
    ensures PartOf(t).Some? ==> PartOf(t).value == (map[], "")
  {
    var p := StripBy(t, IsEdge);
    assert |p| <= 1;
    assert Find(p, "\n\n") < 0;
    ShortHasNoHeader(p);
  }

  lemma ShortHasNoHeader(p: string)
    requires |p| <= 1
    ensures Headers(p, map[]) == map[]
  {
    if p != "" {
      assert HeaderAt(p) == None;
      assert |Before(p, '\n')| <= 1;
      assert NextLine(p[|Before(p, '\n')|..]) == "";
    }
  }

  lemma NothingInPlainPart()
    ensures AttachmentIn((map[], "")) == []
  {
    NothingInEmpty();
  }

  // Cut at a foreign boundary, the body is one part: the first section, with everything after it.
  lemma ForeignParts(b: string, x: string, sections: seq<Section>) returns (z: string, extra: seq<Part>)
    requires IsBoundary(b) && x != "" && '\n' !in x && !(x <= b) && |sections| >= 2 && ReadableSection(sections[0])
    requires forall s <- sections :: !Contains(s.Printed(), "--" + x)
    ensures z != "" && z[0] == '-'
    ensures PartsOf(SplitOn(MultipartText(b, sections), "--" + x))
            == [(Dict(sections[0].lines), RStripBy(sections[0].content + "\n" + z, IsEdge))] + extra
    ensures forall p <- extra :: AttachmentIn(p) == []
  {
    hide Find, PartOf, Contains, RStripBy, Dict, Block, MultipartText, AttachmentIn;
    var sep, all := "--" + x, MultipartText(b, sections);
    var first, rest := sections[0], MultipartText(b, sections[1..]);
    ForeignFind(b, x, sections);
    MultipartUnfolds(b, sections);
    LongRest(b, sections[1..]);
    var r := Find(all, sep);
    var front := if r < 0 then all else all[..r];
    z := if r < 0 then rest else rest[..|rest| - |b| - 4];
    assert front == "--" + (b + ("\n" + first.Printed() + "\n" + z));
    FirstPart(b, first, z, front);
    var pieces := SplitOn(all, sep);
    if r < 0 {
      extra := [];
      assert pieces == [front] && pieces[1..] == [] && PartsOf([]) == [];
    } else {
      var tail := all[r + |sep|..];
      assert |sep| > |b| + 2 by { LongerThanBoundary(b, x, sections, r); }
      ShortPiece(tail);
      NothingInPlainPart();
      assert Find(tail, sep) < 0;
      assert SplitOn(tail, sep) == [tail];
      assert pieces == [front, tail] && pieces[1..] == [tail] && [tail][1..] == [] && PartsOf([]) == [];
      extra := if PartOf(tail).Some? then [PartOf(tail).value] else [];
      assert PartsOf([tail]) == extra;
    }
  }

  lemma LongRest(b: string, sections: seq<Section>)
    requires sections != []
    ensures var rest := MultipartText(b, sections); |rest| > |b| + 4 && rest[0] == '-'
  {
    hide Section.Printed;
    MultipartUnfolds(b, sections);
    assert |MultipartText(b, sections[1..])| >= 4;
  }

  // Where a foreign separator is found, it is longer than the boundary.
  lemma LongerThanBoundary(b: string, x: string, sections: seq<Section>, r: nat)
    requires r == Find(MultipartText(b, sections), "--" + x) == |MultipartText(b, sections)| - |b| - 4 && !(x <= b)
    ensures |"--" + x| > |b| + 2
  {
    hide MultipartText, Find;
    var all := MultipartText(b, sections);
    FindOccurs(all, "--" + x);
    EndsInBoundary(b, sections);
    assert "--" + x <= "--" + (b + "--") by {
      assert all[r..] == "--" + b + "--";
    }
    if |x| <= |b| {
      BeginsBoundary(b, x, "--");
    }
  }

  lemma BeginsBoundary(b: string, x: string, s: string)
    requires "--" + x <= "--" + (b + s) && |x| <= |b|
    ensures x <= b
  {
    assert ("--" + x)[2..] == x && ("--" + (b + s))[2..2 + |x|] == b[..|x|];
  }

  lemma {:induction false} FindOccurs(s: string, sub: string)
    requires Find(s, sub) >= 0
    ensures sub <= s[Find(s, sub)..]
  {
    if !(sub <= s) {
      FindOccurs(s[1..], sub);
      assert s[1..][Find(s[1..], sub)..] == s[Find(s, sub)..];
    }
  }

  lemma {:induction false} EndsInBoundary(b: string, sections: seq<Section>)
    ensures var all := MultipartText(b, sections); |all| >= |b| + 4 && all[|all| - |b| - 4..] == "--" + b + "--"
  {
    if sections == [] {
      assert MultipartText(b, []) == "--" + b + "--";
    } else {
      hide MultipartText;
      var all, rest := MultipartText(b, sections), MultipartText(b, sections[1..]);
      EndsInBoundary(b, sections[1..]);
      var front := RestFollows(b, sections);
      SameEnd(all, front, rest, |b| + 4);
    }
  }

  lemma RestFollows(b: string, sections: seq<Section>) returns (front: string)
    requires sections != []
    ensures MultipartText(b, sections) == front + MultipartText(b, sections[1..])
  {
    hide MultipartText, Section.Printed;
    MultipartUnfolds(b, sections);
    var text, rest := sections[0].Printed(), MultipartText(b, sections[1..]);
    front := "--" + (b + ("\n" + text + "\n"));
    assert "\n" + text + "\n" + rest == ("\n" + text + "\n") + rest;
    Associative(b, "\n" + text + "\n", rest);
    Associative("--", b + ("\n" + text + "\n"), rest);
  }

  lemma SameEnd(all: string, front: string, rest: string, k: nat)
    requires all == front + rest && k <= |rest|
    ensures all[|all| - k..] == rest[|rest| - k..]
  {
  }

  lemma FirstPart(b: string, first: Section, z: string, front: string)
    requires IsBoundary(b) && ReadableSection(first)
    requires front == "--" + (b + ("\n" + first.Printed() + "\n" + z))
    ensures PartOf(front) == Some((Dict(first.lines), RStripBy(first.content + "\n" + z, IsEdge)))
  {
    hide PartOf, Block, Dict, RStripBy;
    var y, content := "--" + b, first.content + "\n" + z;
    assert AllIn(y, IsNameChar);
    PartIsRead(y, first.lines, content, "");
    assert first.Printed() + "\n" + z == Block(first.lines) + "\n\n" + content;
    assert front == y + "\n" + (Block(first.lines) + "\n\n" + content) + "";
  }

  // What follows is not stripped away.
  lemma MoreRemains(content: string, z: string)
    requires z != "" && z[0] == '-'
    ensures RStripBy(content + "\n" + z, IsEdge) != RStripBy(content, IsEdge)
  {
    hide RStripBy;
    DashRemains(z);
    RStripConcat("\n", z, IsEdge);
    RStripConcat(content, "\n" + z, IsEdge);
    assert content + "\n" + z == content + ("\n" + z);
  }

  lemma {:induction false} DashRemains(z: string)
    requires z != "" && z[0] == '-'
    ensures RStripBy(z, IsEdge) != ""
    decreases |z|
  {
    if IsEdge(z[|z| - 1]) {
      DashRemains(z[..|z| - 1]);
    }
  }
}
