/** The two records the stub generator builds from a Javadoc page: a method
    or constructor (`JavaMethod`) and the class or interface that owns them
    (`JavaClass`), both updated in place while the page is parsed and then
    rendered as Java stub text. */
module Members {
  import opened Strings
  import opened Javadoc

  /** The keys of a method's tag table, in the order the table is created. */
  const MethodTagKeys: seq<string> := ["@param", "@throws", "@return"]

  /** A fresh tag table: the three keys, each with no text. */
  function EmptyTagTable(): (t: seq<TagEntry>)
    ensures Keys(t) == MethodTagKeys
    ensures forall k :: TextsOf(t, k) == []
  {
    var t := [TagEntry("@param", []), TagEntry("@throws", []), TagEntry("@return", [])];
    assert t[1..][1..][1..] == [];
    assert Keys(t[1..][1..]) == ["@return"];
    assert Keys(t[1..]) == ["@throws", "@return"];
    assert forall k :: TextsOf(t, k) == [] by {
      forall k ensures TextsOf(t, k) == [] {
        assert TextsOf(t[1..][1..][1..], k) == [];
        assert TextsOf(t[1..][1..], k) == [];
        assert TextsOf(t[1..], k) == [];
      }
    }
    t
  }

  /** A documented method or constructor. */
  class JavaMethod {
    var definition: string
    var atTags: seq<TagEntry>
    var description: string

    /** The tag table keeps the three keys it was created with. */
    ghost predicate Valid()
      reads this
    {
      Keys(atTags) == MethodTagKeys
    }

    constructor (definition: string)
      ensures Valid()
      ensures this.definition == definition && atTags == EmptyTagTable() && description == ""
    {
      this.definition := definition;
      atTags := EmptyTagTable();
      description := "";
    }

    /** Records `text` under `tag`; a tag that is not a key of the table is a
        `KeyError` in the source, so it is excluded here. */
    method AddAtTag(tag: string, text: string)
      requires tag in Keys(atTags)
      modifies this
      ensures Valid() <==> old(Valid())
      ensures atTags == AppendTag(old(atTags), tag, text)
      ensures Keys(atTags) == Keys(old(atTags))
      ensures TextsOf(atTags, tag) == TextsOf(old(atTags), tag) + [text]
      ensures forall k :: k != tag ==> TextsOf(atTags, k) == TextsOf(old(atTags), k)
      ensures definition == old(definition) && description == old(description)
    {
      atTags := AppendTag(atTags, tag, text);
    }

    /** Replaces the description; the definition and the tags stay. */
    method SetDescription(description: string)
      modifies this
      ensures Valid() <==> old(Valid())
      ensures this.description == description
      ensures definition == old(definition) && atTags == old(atTags)
    {
      this.description := description;
    }

    /** The two lines of a method stub: its comment, then its definition,
        ended by `;` inside an interface and by an empty body ` {}` otherwise. */
    function Format(interface: bool): (r: seq<string>)
      reads this
      ensures |r| == 2 && r[0] == JavadocComment(description, atTags)
      ensures |r[1]| > |definition| && r[1][..|definition|] == definition
      ensures interface ==> r[1] == definition + ";"
      ensures !interface ==> r[1] == definition + " {}"
    {
      [JavadocComment(description, atTags), definition + (if interface then ";" else " {}")]
    }
  }

  /** The two lines of each member, in the order of `ms`. */
  function FormatAll(ms: seq<JavaMethod>, interface: bool): (r: seq<seq<string>>)
    reads ms
    ensures |r| == |ms|
    ensures forall k :: 0 <= k < |ms| ==> r[k] == ms[k].Format(interface)
  {
    seq(|ms|, k requires 0 <= k < |ms| reads ms => ms[k].Format(interface))
  }

  /** Each block followed by an empty line, in order. */
  function Blocks(bs: seq<seq<string>>): seq<string> {
    if bs == [] then [] else Blocks(bs[..|bs| - 1]) + bs[|bs| - 1] + [""]
  }

  /** With two lines per block, block `k` and its empty line occupy lines
      `3k` to `3k + 2`. */
  lemma {:induction false} BlockAt(bs: seq<seq<string>>, k: nat)
    requires forall i :: 0 <= i < |bs| ==> |bs[i]| == 2
    requires k < |bs|
    ensures |Blocks(bs)| == 3 * |bs|
    ensures Blocks(bs)[3 * k..3 * k + 3] == bs[k] + [""]
    decreases |bs|
  {
    var front := bs[..|bs| - 1];
    var last := bs[|bs| - 1] + [""];
    if k < |bs| - 1 {
      BlockAt(front, k);
      SliceLeft(Blocks(front), last, 3 * k, 3 * k + 3);
    } else {
      BlocksLength(front);
      SliceRight(Blocks(front), last, 3 * k, 3 * k + 3);
    }
  }

  /** With two lines per block, three lines per block in all. */
  lemma {:induction false} BlocksLength(bs: seq<seq<string>>)
    requires forall i :: 0 <= i < |bs| ==> |bs[i]| == 2
    ensures |Blocks(bs)| == 3 * |bs|
    decreases |bs|
  {
    if bs != [] {
      BlocksLength(bs[..|bs| - 1]);
    }
  }

  /** The lines of the members of a class: each member's two lines followed
      by an empty line, in the order of `ms`. */
  function MemberLines(ms: seq<JavaMethod>, interface: bool): (r: seq<string>)
    reads ms
    ensures |r| == 3 * |ms|
  {
    BlocksLength(FormatAll(ms, interface));
    Blocks(FormatAll(ms, interface))
  }

  /** A documented class or interface with its constructors and methods. */
  class JavaClass {
    var name: string
    var definition: string
    var desc: string
    var constructors: seq<JavaMethod>
    var methods: seq<JavaMethod>

    constructor (name: string, definition: string, description: string)
      ensures this.name == name && this.definition == definition && desc == description
      ensures constructors == [] && methods == []
    {
      this.name := name;
      this.definition := definition;
      desc := description;
      constructors := [];
      methods := [];
    }

    /** Appends a constructor; the methods and the header stay. */
    method AddConstructor(m: JavaMethod)
      modifies this
      ensures constructors == old(constructors) + [m] && methods == old(methods)
      ensures name == old(name) && definition == old(definition) && desc == old(desc)
    {
      constructors := constructors + [m];
    }

    /** Appends a method; the constructors and the header stay. */
    method AddMethod(m: JavaMethod)
      modifies this
      ensures methods == old(methods) + [m] && constructors == old(constructors)
      ensures name == old(name) && definition == old(definition) && desc == old(desc)
    {
      methods := methods + [m];
    }

    /** A class is rendered as an interface when its definition holds the
        word `interface` followed by a space. */
    predicate IsInterface()
      reads this
    {
      Contains(definition, "interface ")
    }

    /** The lines of the stub, before they are joined: the class comment,
        the definition opening a block, an empty line, the members
        (constructors first) and the closing brace. */
    function Lines(): seq<string>
      reads this, constructors, methods
    {
      HeaderLines() + MemberLines(constructors + methods, IsInterface()) + ["}"]
    }

    /** The class comment, the definition opening a block and an empty line. */
    function HeaderLines(): seq<string>
      reads this
    {
      [JavadocComment(desc, []), definition + " {", ""]
    }

    /** `JavaClass.format()`: the stub text of the class. */
    method Format() returns (s: string)
      ensures s == Join("\n", Lines())
    {
      var interface := IsInterface();
      var ret := [JavadocComment(desc, []), definition + " {"];
      ret := ret + [""];
      assert ret == HeaderLines();
      ret := AppendMembers(ret, constructors + methods, interface);
      ret := ret + ["}"];
      s := Join("\n", ret);
    }
  }

  /** The loop of `JavaClass.format()` over the members: each member's two
      lines and an empty line, appended in order. */
  method AppendMembers(ret: seq<string>, members: seq<JavaMethod>, interface: bool)
      returns (r: seq<string>)
    ensures r == ret + MemberLines(members, interface)
  {
    r := ret;
    for i := 0 to |members|
      invariant r == ret + MemberLines(members[..i], interface)
    {
      MemberLinesStep(ret, members, i, interface);
      r := r + members[i].Format(interface);
      r := r + [""];
    }
    assert members[..|members|] == members;
  }

  /** One more member adds its two lines and an empty line at the end. */
  lemma MemberLinesStep(header: seq<string>, ms: seq<JavaMethod>, i: nat, interface: bool)
    requires i < |ms|
    ensures header + MemberLines(ms[..i + 1], interface) ==
      header + MemberLines(ms[..i], interface) + ms[i].Format(interface) + [""]
  {
    var bs := FormatAll(ms[..i + 1], interface);
    assert bs[..i] == FormatAll(ms[..i], interface);
  }

  /** Joining the lines of a stub puts the comment, the opening line and an
      empty line in front and the closing brace at the end. */
  lemma JoinedShape(comment: string, opening: string, body: seq<string>)
    ensures var s := Join("\n", [comment, opening, ""] + body + ["}"]);
      var head := comment + "\n" + opening + "\n\n";
      |s| > |head| && s[..|head|] == head && s[|s| - 2..] == "\n}"
  {
    var lines := [comment, opening, ""] + body + ["}"];
    var s := Join("\n", lines);
    var tail := Join("\n", body + ["}"]);
    assert lines == [comment] + ([opening] + ([""] + (body + ["}"])));
    JoinCons("\n", "", body + ["}"]);
    JoinCons("\n", opening, [""] + (body + ["}"]));
    JoinCons("\n", comment, [opening] + ([""] + (body + ["}"])));
    var head := comment + "\n" + opening + "\n\n";
    assert s == head + tail;
    assert lines == ([comment, opening, ""] + body) + ["}"];
    JoinSnoc("\n", [comment, opening, ""] + body, "}");
    var front := Join("\n", [comment, opening, ""] + body);
    assert s == front + "\n}";
  }

  /** A method's tag lines list every `@param` text, then every `@throws`
      text, then every `@return` text, each in the order it was added. */
  lemma MethodTagOrder(t: seq<TagEntry>)
    requires Keys(t) == MethodTagKeys
    ensures TagLines(t) ==
      Prefixed("@param ", TextsOf(t, "@param")) +
      Prefixed("@throws ", TextsOf(t, "@throws")) +
      Prefixed("@return ", TextsOf(t, "@return"))
  {
    assert t[0].tag == "@param" && t[1].tag == "@throws" && t[2].tag == "@return";
    assert "@param" + " " == "@param " && "@throws" + " " == "@throws " && "@return" + " " == "@return ";
    var t1 := t[1..];
    var t2 := t1[1..];
    assert t2[1..] == [];
    assert TextsOf(t, "@param") == t[0].texts;
    assert TextsOf(t, "@throws") == TextsOf(t1, "@throws") == t[1].texts;
    assert TextsOf(t, "@return") == TextsOf(t1, "@return") == TextsOf(t2, "@return") == t[2].texts;
    assert TagLines(t2) == Prefixed("@return ", t[2].texts);
    assert TagLines(t1) == Prefixed("@throws ", t[1].texts) + TagLines(t2);
  }

  /** Member `k` of `ms` occupies lines `3k` to `3k + 2`: its comment, its
      definition and an empty line. */
  lemma MemberBlock(ms: seq<JavaMethod>, interface: bool, k: nat)
    requires k < |ms|
    ensures MemberLines(ms, interface)[3 * k..3 * k + 3] == ms[k].Format(interface) + [""]
  {
    BlockAt(FormatAll(ms, interface), k);
  }

  /** The lines of a class stub: the class comment (without tags), the
      definition opening a block, an empty line, three lines per member and
      the closing brace last. */
  lemma ClassLayout(c: JavaClass)
    ensures var l := c.Lines();
      |l| == 4 + 3 * (|c.constructors| + |c.methods|) &&
      l[0] == JavadocComment(c.desc, []) && l[1] == c.definition + " {" && l[2] == "" &&
      l[|l| - 1] == "}"
  {
    var l := c.Lines();
    assert l == c.HeaderLines() + MemberLines(c.constructors + c.methods, c.IsInterface()) + ["}"];
  }

  /** Member `k` of a class stub occupies lines `3 + 3k` to `5 + 3k`; the
      constructors come first, in the order they were added, then the
      methods, in the order they were added. */
  lemma ClassMemberBlock(c: JavaClass, k: nat)
    requires k < |c.constructors| + |c.methods|
    ensures var l := c.Lines();
      6 + 3 * k <= |l| &&
      (k < |c.constructors| ==>
        l[3 + 3 * k..6 + 3 * k] == c.constructors[k].Format(c.IsInterface()) + [""]) &&
      (k >= |c.constructors| ==>
        l[3 + 3 * k..6 + 3 * k] == c.methods[k - |c.constructors|].Format(c.IsInterface()) + [""])
  {
    var all := c.constructors + c.methods;
    StubBlockAt(c.HeaderLines(), all, c.IsInterface(), k);
    if k < |c.constructors| {
      assert all[k] == c.constructors[k];
    } else {
      assert all[k] == c.methods[k - |c.constructors|];
    }
  }

  /** Member `k` of a stub with a three-line header occupies lines `3 + 3k`
      to `5 + 3k`. */
  lemma StubBlockAt(header: seq<string>, ms: seq<JavaMethod>, interface: bool, k: nat)
    requires |header| == 3 && k < |ms|
    ensures var l := header + MemberLines(ms, interface) + ["}"];
      6 + 3 * k <= |l| && l[3 + 3 * k..6 + 3 * k] == ms[k].Format(interface) + [""]
  {
    MemberBlock(ms, interface, k);
    SliceMiddle(header, MemberLines(ms, interface), ["}"], 3 + 3 * k, 6 + 3 * k);
  }

  /** Every member's definition line ends in `;` when the class definition
      names an interface, and in an empty body ` {}` otherwise. */
  lemma MemberDefinitionLine(c: JavaClass, k: nat)
    requires k < |c.constructors| + |c.methods|
    ensures var l := c.Lines();
      var m := (c.constructors + c.methods)[k];
      4 + 3 * k < |l| &&
      l[4 + 3 * k] == m.definition + (if c.IsInterface() then ";" else " {}")
  {
    ClassMemberBlock(c, k);
    assert c.Lines()[4 + 3 * k] == c.Lines()[3 + 3 * k..6 + 3 * k][1];
  }

  /** The stub text starts with the class comment, the definition line and
      an empty line, and ends with the closing brace on a line of its own. */
  lemma ClassTextShape(c: JavaClass)
    ensures var s := Join("\n", c.Lines());
      var head := JavadocComment(c.desc, []) + "\n" + c.definition + " {" + "\n\n";
      |s| > |head| && s[..|head|] == head && s[|s| - 2..] == "\n}"
  {
    var m := MemberLines(c.constructors + c.methods, c.IsInterface());
    assert c.Lines() == [JavadocComment(c.desc, []), c.definition + " {", ""] + m + ["}"];
    JoinedShape(JavadocComment(c.desc, []), c.definition + " {", m);
  }
}
