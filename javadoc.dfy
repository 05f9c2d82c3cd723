/** Rendering of one Javadoc comment block (`javadoc_comment` in
    javadoc_stubs.py) and the tag table it renders: an ordered table from a
    tag such as `@param` to the texts recorded under it, kept in the order
    the keys were inserted, as a Python dict is. */
module Javadoc {
  import opened Strings

  /** One key of the tag table with its texts, in insertion order. */
  datatype TagEntry = TagEntry(tag: string, texts: seq<string>)

  /** The keys of the table, in table order. */
  function Keys(tags: seq<TagEntry>): (ks: seq<string>)
    ensures |ks| == |tags|
    ensures forall i :: 0 <= i < |tags| ==> ks[i] == tags[i].tag
  {
    if tags == [] then [] else [tags[0].tag] + Keys(tags[1..])
  }

  /** `at_tags[tag]`: the texts stored under `tag`, none when it is no key. */
  function TextsOf(tags: seq<TagEntry>, tag: string): seq<string> {
    if tags == [] then []
    else if tags[0].tag == tag then tags[0].texts
    else TextsOf(tags[1..], tag)
  }

  /** `at_tags[tag].append(text)`: the keys stay the same and in the same
      order, `text` goes to the end of the texts of `tag`, and every other
      key keeps its texts. */
  function AppendTag(tags: seq<TagEntry>, tag: string, text: string): (r: seq<TagEntry>)
    requires tag in Keys(tags)
    ensures Keys(r) == Keys(tags)
    ensures TextsOf(r, tag) == TextsOf(tags, tag) + [text]
    ensures forall k :: k != tag ==> TextsOf(r, k) == TextsOf(tags, k)
  {
    if tags[0].tag == tag then [TagEntry(tag, tags[0].texts + [text])] + tags[1..]
    else [tags[0]] + AppendTag(tags[1..], tag, text)
  }

  /** `[p + text for text in texts]` */
  function Prefixed(p: string, texts: seq<string>): (r: seq<string>)
    ensures |r| == |texts|
    ensures forall i :: 0 <= i < |texts| ==> r[i] == p + texts[i]
  {
    if texts == [] then [] else [p + texts[0]] + Prefixed(p, texts[1..])
  }

  /** The tag lines of a comment: for each key in table order, one line
      `tag + ' ' + text` per text, in insertion order. */
  function TagLines(tags: seq<TagEntry>): seq<string> {
    if tags == [] then [] else Prefixed(tags[0].tag + " ", tags[0].texts) + TagLines(tags[1..])
  }

  /** Undoes the one-space indentation that the HTML source puts after each
      line break of a description (`comment.replace('\n ', '\n')`). */
  function CollapseIndent(s: string): string {
    ReplaceAll(s, "\n ", "\n")
  }

  /** Puts the comment margin after every line break (`replace('\n', '\n * ')`). */
  function Indent(s: string): string {
    ReplaceAll(s, "\n", "\n * ")
  }

  // The shape every rendered comment has: it opens with "/**" on a line of
  // its own, closes with " */" on a line of its own, and every line after
  // the first starts with " *".
  predicate IsCommentBlock(r: string) {
    |r| >= 7 && r[..4] == "/**\n" && r[|r| - 4..] == "\n */" &&
    forall i :: 0 <= i < |r| && r[i] == '\n' ==> i + 2 < |r| && r[i + 1..i + 3] == " *"
  }

  /** `javadoc_comment(comment, at_tags)` */
  function JavadocComment(comment: string, atTags: seq<TagEntry>): string {
    var tagText := Join("\n", TagLines(atTags));
    var body := RStrip(CollapseIndent(comment)) + "\n" + tagText;
    RStrip(Indent("/**\n" + body)) + "\n */"
  }

  /** Every rendered comment is a comment block. */
  lemma CommentIsBlock(comment: string, atTags: seq<TagEntry>)
    ensures IsCommentBlock(JavadocComment(comment, atTags))
  {
    CommentShape(RStrip(CollapseIndent(comment)) + "\n" + Join("\n", TagLines(atTags)));
  }

  // Indenting "/**\n" + x gives "/**\n * " + Indent(x).
  lemma IndentOpening(x: string)
    ensures Indent("/**\n" + x) == "/**\n * " + Indent(x)
  {
    assert "/**\n" + x == "/**" + ("\n" + x);
    ReplaceCharDistributes("/**", "\n" + x, '\n', "\n * ");
    ReplaceCharDistributes("\n", x, '\n', "\n * ");
    ReplaceCharAbsent("/**", '\n', "\n * ");
    ReplaceCharSelf('\n', "\n * ");
  }

  /** Whatever the body, the margin and the closing line give a comment block. */
  lemma CommentShape(body: string)
    ensures IsCommentBlock(RStrip(Indent("/**\n" + body)) + "\n */")
  {
    var e := Indent("/**\n" + body);
    IndentOpening(body);
    assert e[..6] == "/**\n *";
    EscapedCharFollowed("/**\n" + body, '\n', " * ");
    assert ['\n'] + " * " == "\n * ";
    var p := RStrip(e);
    MarginSurvivesStrip(e);
    var r := p + "\n */";
    assert r[..4] == p[..4];
    assert r[|r| - 4..] == "\n */";
    forall i | 0 <= i < |r| && r[i] == '\n' ensures i + 2 < |r| && r[i + 1..i + 3] == " *" {
      if i < |p| {
        assert r[i] == p[i];
        assert r[i + 1..i + 3] == p[i + 1..i + 3];
      } else {
        assert i == |p|;
        assert r[i + 1..i + 3] == " *";
      }
    }
  }

  /** Stripping trailing whitespace never cuts into the ` *` after a line break. */
  lemma MarginSurvivesStrip(e: string)
    requires |e| >= 6 && e[..6] == "/**\n *" && EachFollowedBy(e, '\n', " * ")
    ensures var p := RStrip(e);
      |p| >= 6 && p[..4] == "/**\n" &&
      forall i :: 0 <= i < |p| && p[i] == '\n' ==> i + 2 < |p| && p[i + 1..i + 3] == " *"
  {
    var p := RStrip(e);
    RStripSpec(e);
    assert e[5] == '*' && !IsSpace(e[5]);
    assert |p| >= 6;
    assert p[..4] == e[..6][..4] == "/**\n";
    forall i | 0 <= i < |p| && p[i] == '\n' ensures i + 2 < |p| && p[i + 1..i + 3] == " *" {
      MarginAt(e, p, i);
    }
  }

  // One line break of the stripped text keeps its margin.
  lemma MarginAt(e: string, p: string, i: nat)
    requires EachFollowedBy(e, '\n', " * ")
    requires |p| <= |e| && p == e[..|p|]
    requires forall j :: |p| <= j < |e| ==> IsSpace(e[j])
    requires i < |p| && p[i] == '\n'
    ensures i + 2 < |p| && p[i + 1..i + 3] == " *"
  {
    assert e[i] == '\n';
    assert e[i + 1..i + 4] == " * ";
    assert e[i + 2] == '*';
    assert !IsSpace(e[i + 2]);
    assert i + 2 < |p|;
    assert p[i + 1..i + 3] == e[i + 1..i + 3] == e[i + 1..i + 4][..2];
  }

  /** The margin put before each line: one ` * `-prefixed line per entry. */
  function IndentedLines(lines: seq<string>): string {
    if lines == [] then "" else "\n * " + Indent(lines[0]) + IndentedLines(lines[1..])
  }

  /** Indenting a line break followed by joined lines indents every line. */
  lemma {:induction false} IndentJoined(lines: seq<string>)
    requires lines != []
    ensures Indent("\n" + Join("\n", lines)) == IndentedLines(lines)
    decreases |lines|
  {
    IndentLine(lines[0]);
    if |lines| > 1 {
      var a := "\n" + lines[0];
      var b := "\n" + Join("\n", lines[1..]);
      assert "\n" + Join("\n", lines) == a + b by {
        assert lines == [lines[0]] + lines[1..];
        JoinCons("\n", lines[0], lines[1..]);
      }
      ReplaceCharDistributes(a, b, '\n', "\n * ");
      IndentJoined(lines[1..]);
    } else {
      assert Join("\n", lines) == lines[0];
      assert IndentedLines(lines[1..]) == "";
    }
  }

  /** A line after a line break gets the margin ` * `. */
  lemma IndentLine(line: string)
    ensures Indent("\n" + line) == "\n * " + Indent(line)
  {
    ReplaceCharDistributes("\n", line, '\n', "\n * ");
    ReplaceCharSelf('\n', "\n * ");
  }

  /** Indenting the text between the opening and the closing of a comment. */
  lemma IndentBody(d: string, tail: string)
    ensures Indent("/**\n" + d + "\n" + tail) == "/**" + Indent("\n" + d) + Indent("\n" + tail)
  {
    assert "/**\n" + d + "\n" + tail == "/**" + ("\n" + d) + ("\n" + tail);
    ReplaceCharDistributes("/**" + ("\n" + d), "\n" + tail, '\n', "\n * ");
    ReplaceCharDistributes("/**", "\n" + d, '\n', "\n * ");
    ReplaceCharAbsent("/**", '\n', "\n * ");
  }

  /** Indenting leaves a final character other than a line break in place. */
  lemma IndentKeepsLast(s: string)
    requires s != [] && s[|s| - 1] != '\n'
    ensures Indent(s) != [] && Indent(s)[|Indent(s)| - 1] == s[|s| - 1]
  {
    var c := s[|s| - 1];
    assert s == s[..|s| - 1] + [c];
    ReplaceCharDistributes(s[..|s| - 1], [c], '\n', "\n * ");
    ReplaceCharAbsent([c], '\n', "\n * ");
  }

  /** The indented lines end where the last line ends. */
  lemma {:induction false} IndentedLinesLast(lines: seq<string>)
    requires lines != [] && lines[|lines| - 1] != []
    requires !IsSpace(lines[|lines| - 1][|lines[|lines| - 1]| - 1])
    ensures var t := IndentedLines(lines); t != [] && !IsSpace(t[|t| - 1])
    decreases |lines|
  {
    if |lines| == 1 {
      IndentKeepsLast(lines[0]);
      assert IndentedLines(lines[1..]) == "";
    } else {
      IndentedLinesLast(lines[1..]);
    }
  }

  /** Every comment is the opening, the stripped description and one
      ` * `-prefixed line per tag line (a single empty one when there are
      none), stripped of trailing whitespace as a whole, then the closing. */
  lemma CommentLayout(comment: string, atTags: seq<TagEntry>)
    ensures var d := RStrip(CollapseIndent(comment));
      var ls := TagLines(atTags);
      JavadocComment(comment, atTags) ==
        RStrip("/**" + Indent("\n" + d) + IndentedLines(if ls == [] then [""] else ls)) + "\n */"
  {
    var d := RStrip(CollapseIndent(comment));
    var ls := TagLines(atTags);
    var lines := if ls == [] then [""] else ls;
    var tail := Join("\n", ls);
    assert Join("\n", lines) == tail;
    assert "/**\n" + (d + "\n" + tail) == "/**\n" + d + "\n" + tail;
    IndentBody(d, tail);
    IndentJoined(lines);
  }

  /** An empty description without tags renders as an opening line, a line
      holding ` * `, a line holding ` *` and the closing line. */
  lemma EmptyComment()
    ensures JavadocComment("", []) == "/**\n * \n *\n */"
  {
    CommentLayout("", []);
    assert CollapseIndent("") == "" && RStrip("") == "";
    IndentLine("");
    assert Indent("") == "";
    assert IndentedLines([""]) == "\n * ";
    var x := "/**" + "\n * " + "\n * ";
    assert x == "/**\n * \n *" + " ";
    assert RStrip(x) == RStrip("/**\n * \n *");
    RStripKeeps("/**\n * \n *");
  }

  /** When the last tag line ends in visible text, the comment is exactly the
      opening, the description, one ` * `-prefixed line per tag line and the
      closing: tag lines are never trimmed, dropped or reordered. */
  lemma CommentWithTags(comment: string, atTags: seq<TagEntry>)
    requires var ls := TagLines(atTags);
      ls != [] && ls[|ls| - 1] != [] && !IsSpace(ls[|ls| - 1][|ls[|ls| - 1]| - 1])
    ensures JavadocComment(comment, atTags) ==
      "/**" + Indent("\n" + RStrip(CollapseIndent(comment))) + IndentedLines(TagLines(atTags)) + "\n */"
  {
    IndentedComment(RStrip(CollapseIndent(comment)), TagLines(atTags));
  }

  // The comment text before its closing line, for a description `d` and
  // tag lines `ls` whose last line ends in visible text.
  lemma IndentedComment(d: string, ls: seq<string>)
    requires ls != [] && ls[|ls| - 1] != [] && !IsSpace(ls[|ls| - 1][|ls[|ls| - 1]| - 1])
    ensures RStrip(Indent("/**\n" + (d + "\n" + Join("\n", ls)))) ==
      "/**" + Indent("\n" + d) + IndentedLines(ls)
  {
    var e := "/**" + Indent("\n" + d) + IndentedLines(ls);
    assert Indent("/**\n" + (d + "\n" + Join("\n", ls))) == e by {
      assert "/**\n" + (d + "\n" + Join("\n", ls)) == "/**\n" + d + "\n" + Join("\n", ls);
      IndentBody(d, Join("\n", ls));
      IndentJoined(ls);
    }
    IndentedLinesLast(ls);
    RStripKeeps(e);
  }

  /** With no tag lines and a description that is not blank, the description
      is followed by a line holding only ` *` before the closing line. */
  lemma CommentWithoutTags(comment: string, atTags: seq<TagEntry>)
    requires TagLines(atTags) == []
    requires RStrip(CollapseIndent(comment)) != []
    ensures JavadocComment(comment, atTags) ==
      "/**" + Indent("\n" + RStrip(CollapseIndent(comment))) + "\n *\n */"
  {
    var d := RStrip(CollapseIndent(comment));
    assert Join("\n", TagLines(atTags)) == "";
    assert "/**\n" + (d + "\n" + "") == "/**\n" + d + "\n" + "";
    IndentBody(d, "");
    IndentLine("");
    assert Indent("") == "";
    var m := "/**" + Indent("\n" + d);
    RStripSpec(CollapseIndent(comment));
    IndentKeepsLast("\n" + d);
    var x := Indent("/**\n" + d + "\n" + "");
    assert x == m + "\n * ";
    assert !IsSpace(m[|m| - 1]);
    assert x == (m + "\n *") + " ";
    assert RStrip(x) == RStrip(m + "\n *");
    RStripKeeps(m + "\n *");
  }

  /** Collapsing undoes the one-space indentation that the HTML source adds
      after every line break of a description. */
  lemma CollapseUndoesIndent(s: string)
    ensures CollapseIndent(ReplaceAll(s, "\n", "\n ")) == s
  {
    EscapeRoundTrip(s, '\n', " ");
    assert "\n" + " " == "\n ";
  }

  /** The margin can be taken off again: replacing `"\n * "` by `"\n"`
      recovers the text that was indented. */
  lemma MarginRoundTrip(s: string)
    ensures ReplaceAll(Indent(s), "\n * ", "\n") == s
  {
    EscapeRoundTrip(s, '\n', " * ");
    assert "\n" + " * " == "\n * ";
  }

  /** Tag lines of a table split at any point are those of the two parts. */
  lemma {:induction false} TagLinesSplit(a: seq<TagEntry>, b: seq<TagEntry>)
    ensures TagLines(a + b) == TagLines(a) + TagLines(b)
    decreases |a|
  {
    if a == [] {
      assert a + b == b;
    } else {
      assert (a + b)[1..] == a[1..] + b;
      TagLinesSplit(a[1..], b);
    }
  }

  /** A key whose list is empty contributes no line. */
  lemma EmptyKeyNoLines(a: seq<TagEntry>, tag: string, b: seq<TagEntry>)
    ensures TagLines(a + [TagEntry(tag, [])] + b) == TagLines(a + b)
  {
    TagLinesSplit(a + [TagEntry(tag, [])], b);
    TagLinesSplit(a, [TagEntry(tag, [])]);
    TagLinesSplit(a, b);
    assert TagLines([TagEntry(tag, [])]) == [];
  }
}
