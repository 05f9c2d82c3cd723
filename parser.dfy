/** The part of the Javadoc page parser that turns the detail entry of one
    method or constructor into a `JavaMethod`: `parse_one_method`, which
    dispatches over the children of the entry, and `parse_dl`, the state
    machine that files the `dt`/`dd` lists under the method's tags.  The
    HTML tree that BeautifulSoup builds is given here as a `Node` value. */
module Parser {
  import opened Strings
  import opened Javadoc
  import opened Members

  datatype Option<T> = None | Some(value: T)

  /** A node of the parsed page: a piece of text, or an element with its tag
      name, its CSS classes, its children and its serialized inner HTML
      (what `encode_contents()` gives; the serializer itself is not part of
      this model). */
  datatype Node =
    | Text(s: string)
    | Element(name: string, classes: seq<string>, children: seq<Node>, inner: string)

  /** `node.text`: all text below the node, in document order. */
  function NodeText(n: Node): string
    decreases n, 1
  {
    match n
    case Text(s) => s
    case Element(_, _, children, _) => NodesText(children)
  }

  /** The texts of a sequence of nodes, one after the other. */
  function NodesText(ns: seq<Node>): string
    decreases ns, 0
  {
    if ns == [] then "" else NodeText(ns[0]) + NodesText(ns[1..])
  }

  /** `JavaDocParser.AT_TAGS`: the `dt` headings the parser knows, with the
      tag each one files its entries under; `Specified by:` files nothing. */
  const AtTags: map<string, Option<string>> := map[
    "Parameters:" := Some("@param"),
    "Returns:" := Some("@return"),
    "Throws:" := Some("@throws"),
    "Specified by:" := None]

  /** Every tag of the table is a key of a method's tag table. */
  lemma AtTagsTargetMethodKeys(heading: string)
    requires heading in AtTags && AtTags[heading].Some?
    ensures AtTags[heading].value in MethodTagKeys
  {
    if heading == "Parameters:" {
      assert AtTags[heading].value == MethodTagKeys[0];
    } else if heading == "Returns:" {
      assert AtTags[heading].value == MethodTagKeys[2];
    } else if heading == "Throws:" {
      assert AtTags[heading].value == MethodTagKeys[1];
    }
  }

  predicate IsDt(n: Node) {
    n.Element? && n.name == "dt"
  }

  predicate IsDd(n: Node) {
    n.Element? && n.name == "dd"
  }

  /** Every `dt` heading is one the table knows; any other heading is a
      `KeyError` in the parser. */
  predicate DtsKnown(items: seq<Node>) {
    forall i {:trigger NodeText(items[i])} :: 0 <= i < |items| && IsDt(items[i]) ==> NodeText(items[i]) in AtTags
  }

  /** One entry filed under a tag. */
  datatype TagText = TagText(tag: string, text: string)

  /** The text filed for a `dd`: its first ` - ` becomes a single space. */
  function DdText(n: Node): string {
    ReplaceFirst(NodeText(n), " - ", " ")
  }

  /** What `parse_dl` files, in order, for the items from index `i` on when
      the current category is `current`: a `dt` sets the category, a `dd`
      under a category is filed under it, and anything else is passed over. */
  function DlEntries(items: seq<Node>, i: nat, current: Option<string>): seq<TagText>
    requires DtsKnown(items) && i <= |items|
    requires current.Some? ==> current.value in MethodTagKeys
    decreases |items| - i
  {
    if i == |items| then []
    else
      var c := items[i];
      if IsDt(c) then
        var next := AtTags[NodeText(c)];
        if next.Some? then AtTagsTargetMethodKeys(NodeText(c)); DlEntries(items, i + 1, next)
        else DlEntries(items, i + 1, next)
      else if current.Some? && IsDd(c) then [TagText(current.value, DdText(c))] + DlEntries(items, i + 1, current)
      else DlEntries(items, i + 1, current)
  }

  /** Every entry a list files is under a key of a method's tag table. */
  lemma {:induction false} DlEntriesTags(items: seq<Node>, i: nat, current: Option<string>)
    requires DtsKnown(items) && i <= |items|
    requires current.Some? ==> current.value in MethodTagKeys
    ensures TagsIn(DlEntries(items, i, current), MethodTagKeys)
    decreases |items| - i
  {
    if i < |items| {
      var c := items[i];
      if IsDt(c) {
        HeadingStep(items, i, current);
        DlEntriesTags(items, i + 1, AtTags[NodeText(c)]);
      } else if current.Some? && IsDd(c) {
        DlEntriesTags(items, i + 1, current);
        TagsInConcat([TagText(current.value, DdText(c))], DlEntries(items, i + 1, current), MethodTagKeys);
      } else {
        DlEntriesTags(items, i + 1, current);
      }
    }
  }

  /** Every entry is filed under one of the keys in `keys`. */
  predicate TagsIn(es: seq<TagText>, keys: seq<string>) {
    forall i :: 0 <= i < |es| ==> es[i].tag in keys
  }

  /** The tag table after each entry of `es` has been appended, in order. */
  function ApplyAll(t: seq<TagEntry>, es: seq<TagText>): (r: seq<TagEntry>)
    requires TagsIn(es, Keys(t))
    ensures Keys(r) == Keys(t)
  {
    if es == [] then t
    else
      var last := es[|es| - 1];
      AppendTag(ApplyAll(t, es[..|es| - 1]), last.tag, last.text)
  }

  /** The texts of the entries filed under `k`, in order. */
  function TextsFor(es: seq<TagText>, k: string): seq<string> {
    if es == [] then []
    else TextsFor(es[..|es| - 1], k) + (if es[|es| - 1].tag == k then [es[|es| - 1].text] else [])
  }

  /** Appending the entries keeps every key's earlier texts and adds, in
      order, exactly the texts filed under that key. */
  lemma {:induction false} ApplyAllTexts(t: seq<TagEntry>, es: seq<TagText>, k: string)
    requires TagsIn(es, Keys(t))
    ensures TextsOf(ApplyAll(t, es), k) == TextsOf(t, k) + TextsFor(es, k)
    decreases |es|
  {
    if es != [] {
      var front := es[..|es| - 1];
      ApplyAllTexts(t, front, k);
    }
  }

  /** Two runs filed under known keys make one. */
  lemma TagsInConcat(a: seq<TagText>, b: seq<TagText>, keys: seq<string>)
    requires TagsIn(a, keys) && TagsIn(b, keys)
    ensures TagsIn(a + b, keys)
  {
    assert forall i :: |a| <= i < |a + b| ==> (a + b)[i] == b[i - |a|];
  }

  /** The entries of a run filed under known keys split into two runs
      filed under known keys. */
  lemma TagsInParts(a: seq<TagText>, b: seq<TagText>, keys: seq<string>)
    requires TagsIn(a + b, keys)
    ensures TagsIn(a, keys) && TagsIn(b, keys)
  {
    assert forall i :: 0 <= i < |a| ==> (a + b)[i] == a[i];
    assert forall i :: 0 <= i < |b| ==> (a + b)[|a| + i] == b[i];
  }

  /** Appending two runs of entries one after the other is appending them
      all at once. */
  lemma {:induction false} ApplyAllConcat(t: seq<TagEntry>, a: seq<TagText>, b: seq<TagText>)
    requires TagsIn(a + b, Keys(t))
    ensures TagsIn(a, Keys(t)) && TagsIn(b, Keys(t))
    ensures ApplyAll(ApplyAll(t, a), b) == ApplyAll(t, a + b)
    decreases |b|
  {
    TagsInParts(a, b, Keys(t));
    if b != [] {
      var front := b[..|b| - 1];
      var last := b[|b| - 1];
      assert (a + b)[..|a + b| - 1] == a + front && (a + b)[|a + b| - 1] == last;
      TagsInParts(a, front, Keys(t));
      ApplyAllConcat(t, a, front);
      assert ApplyAll(ApplyAll(t, a), b) == AppendTag(ApplyAll(t, a + front), last.tag, last.text);
    } else {
      assert a + b == a;
    }
  }

  /** `parse_dl(dl, meth)`: files the `dd` entries of the list under the
      method's tags. */
  method ParseDl(dl: Node, meth: JavaMethod)
    requires dl.Element? && DtsKnown(dl.children) && meth.Valid()
    modifies meth
    ensures meth.Valid()
    ensures TagsIn(DlEntries(dl.children, 0, None), Keys(old(meth.atTags)))
    ensures meth.atTags == ApplyAll(old(meth.atTags), DlEntries(dl.children, 0, None))
    ensures meth.definition == old(meth.definition) && meth.description == old(meth.description)
  {
    var items := dl.children;
    var current: Option<string> := None;
    ghost var done: seq<TagText> := [];
    ghost var t := meth.atTags;
    for i := 0 to |items|
      invariant current.Some? ==> current.value in MethodTagKeys
      invariant DlEntries(items, 0, None) == done + DlEntries(items, i, current)
      invariant TagsIn(done, MethodTagKeys)
      invariant meth.Valid() && meth.atTags == ApplyAll(t, done)
      invariant meth.definition == old(meth.definition) && meth.description == old(meth.description)
    {
      current, done := ParseDlItem(items, i, current, meth, t, done);
    }
    assert DlEntries(items, |items|, current) == [];
    assert done + [] == done;
  }

  /** One pass of the loop of `parse_dl`: the item at index `i` either sets
      the category, is filed under it, or is passed over. */
  method ParseDlItem(items: seq<Node>, i: nat, current: Option<string>, meth: JavaMethod,
                     ghost t: seq<TagEntry>, ghost done: seq<TagText>)
    returns (next: Option<string>, ghost done': seq<TagText>)
    requires DtsKnown(items) && i < |items|
    requires current.Some? ==> current.value in MethodTagKeys
    requires DlEntries(items, 0, None) == done + DlEntries(items, i, current)
    requires TagsIn(done, MethodTagKeys) && Keys(t) == MethodTagKeys
    requires meth.Valid() && meth.atTags == ApplyAll(t, done)
    modifies meth
    ensures next.Some? ==> next.value in MethodTagKeys
    ensures DlEntries(items, 0, None) == done' + DlEntries(items, i + 1, next)
    ensures TagsIn(done', MethodTagKeys)
    ensures meth.Valid() && meth.atTags == ApplyAll(t, done')
    ensures meth.definition == old(meth.definition) && meth.description == old(meth.description)
  {
    var c := items[i];
    if IsDt(c) {
      HeadingStep(items, i, current);
      next, done' := AtTags[NodeText(c)], done;
    } else if current.Some? && IsDd(c) {
      var text := ReplaceFirst(NodeText(c), " - ", " ");
      meth.AddAtTag(current.value, text);
      var e := TagText(current.value, text);
      EntryStep(items, i, current, done);
      ApplyAllSnoc(t, done, e);
      next, done' := current, done + [e];
    } else {
      OtherStep(items, i, current);
      next, done' := current, done;
    }
  }

  /** A heading sets the category that the following items are filed under. */
  lemma HeadingStep(items: seq<Node>, i: nat, current: Option<string>)
    requires DtsKnown(items) && i < |items| && IsDt(items[i])
    requires current.Some? ==> current.value in MethodTagKeys
    ensures var next := AtTags[NodeText(items[i])];
      (next.Some? ==> next.value in MethodTagKeys) &&
      DlEntries(items, i, current) == DlEntries(items, i + 1, next)
  {
    if AtTags[NodeText(items[i])].Some? {
      AtTagsTargetMethodKeys(NodeText(items[i]));
    }
  }

  /** A `dd` under a category files one entry. */
  lemma EntryStep(items: seq<Node>, i: nat, current: Option<string>, done: seq<TagText>)
    requires DtsKnown(items) && i < |items| && !IsDt(items[i]) && IsDd(items[i])
    requires current.Some? && current.value in MethodTagKeys
    requires DlEntries(items, 0, None) == done + DlEntries(items, i, current)
    ensures DlEntries(items, 0, None) ==
      (done + [TagText(current.value, DdText(items[i]))]) + DlEntries(items, i + 1, current)
  {
    var after := DlEntries(items, i + 1, current);
    var e := TagText(current.value, DdText(items[i]));
    assert DlEntries(items, i, current) == [e] + after;
    assert done + ([e] + after) == (done + [e]) + after;
  }

  /** Anything but a heading or a `dd` under a category is passed over. */
  lemma OtherStep(items: seq<Node>, i: nat, current: Option<string>)
    requires DtsKnown(items) && i < |items| && !IsDt(items[i])
    requires current.Some? ==> current.value in MethodTagKeys
    requires !(current.Some? && IsDd(items[i]))
    ensures DlEntries(items, i, current) == DlEntries(items, i + 1, current)
  {
  }

  /** Appending one more entry is one more `AppendTag`. */
  lemma ApplyAllSnoc(t: seq<TagEntry>, es: seq<TagText>, e: TagText)
    requires TagsIn(es, Keys(t)) && e.tag in Keys(t)
    ensures TagsIn(es + [e], Keys(t))
    ensures ApplyAll(t, es + [e]) == AppendTag(ApplyAll(t, es), e.tag, e.text)
  {
    assert (es + [e])[..|es|] == es;
  }

  /** The entries filed under `tag` for the items from `i` up to `k`: one
      per `dd`, in order, with its first ` - ` turned into a space; text
      and any other element file nothing. */
  function DdRun(items: seq<Node>, i: nat, k: nat, tag: string): seq<TagText>
    requires i <= k <= |items|
    decreases k - i
  {
    if i == k then []
    else (if IsDd(items[i]) then [TagText(tag, DdText(items[i]))] else []) + DdRun(items, i + 1, k, tag)
  }

  /** A stretch `[i, k)` of a list without a heading: under a category it
      files exactly the `dd` items of the stretch, and without one nothing;
      the rest of the list is filed as if it started at `k`. */
  lemma {:induction false} SegmentEntries(items: seq<Node>, i: nat, k: nat, current: Option<string>)
    requires DtsKnown(items) && i <= k <= |items|
    requires current.Some? ==> current.value in MethodTagKeys
    requires forall j :: i <= j < k ==> !IsDt(items[j])
    ensures DlEntries(items, i, current) ==
      (if current.Some? then DdRun(items, i, k, current.value) else []) + DlEntries(items, k, current)
    decreases k - i
  {
    if i < k {
      SegmentEntries(items, i + 1, k, current);
      var rest := DlEntries(items, k, current);
      if current.Some? {
        var run := DdRun(items, i + 1, k, current.value);
        var head := if IsDd(items[i]) then [TagText(current.value, DdText(items[i]))] else [];
        assert DlEntries(items, i, current) == head + (run + rest);
        assert head + (run + rest) == (head + run) + rest;
      }
    } else {
      assert DlEntries(items, i, current) == [] + DlEntries(items, k, current);
    }
  }

  /** Every `dd` before the first heading is passed over: the list files
      what it would file if it began at that heading. */
  lemma NoDtNoEntries(items: seq<Node>, k: nat)
    requires DtsKnown(items) && k <= |items|
    requires forall j :: 0 <= j < k ==> !IsDt(items[j])
    ensures DlEntries(items, 0, None) == DlEntries(items, k, None)
  {
    SegmentEntries(items, 0, k, None);
  }

  /** The `dd` entries under `Specified by:` are dropped, up to the next
      heading. */
  lemma SpecifiedByDrops(items: seq<Node>, i: nat, k: nat, current: Option<string>)
    requires DtsKnown(items) && i < k <= |items|
    requires IsDt(items[i]) && NodeText(items[i]) == "Specified by:"
    requires forall j :: i < j < k ==> !IsDt(items[j])
    requires current.Some? ==> current.value in MethodTagKeys
    ensures DlEntries(items, i, current) == DlEntries(items, k, None)
  {
    SegmentEntries(items, i + 1, k, None);
  }

  /** Under a heading the table maps to `tag`, each `dd` up to the next
      heading is filed under `tag`, in order. */
  lemma SectionEntries(items: seq<Node>, i: nat, k: nat, current: Option<string>, tag: string)
    requires DtsKnown(items) && i < k <= |items|
    requires IsDt(items[i]) && AtTags[NodeText(items[i])] == Some(tag)
    requires forall j :: i < j < k ==> !IsDt(items[j])
    requires current.Some? ==> current.value in MethodTagKeys
    ensures tag in MethodTagKeys
    ensures DlEntries(items, i, current) == DdRun(items, i + 1, k, tag) + DlEntries(items, k, Some(tag))
  {
    AtTagsTargetMethodKeys(NodeText(items[i]));
    SegmentEntries(items, i + 1, k, Some(tag));
  }

  /** A stretch made only of `dd` items files one entry per item, in order,
      with its first ` - ` turned into a space. */
  lemma {:induction false} DdRunAllDd(items: seq<Node>, i: nat, k: nat, tag: string)
    requires i <= k <= |items|
    requires forall j :: i <= j < k ==> IsDd(items[j])
    ensures var r := DdRun(items, i, k, tag);
      |r| == k - i &&
      forall j :: 0 <= j < |r| ==> r[j] == TagText(tag, DdText(items[i + j]))
    decreases k - i
  {
    if i < k {
      var rest := DdRun(items, i + 1, k, tag);
      DdRunAllDd(items, i + 1, k, tag);
      var e := TagText(tag, DdText(items[i]));
      assert DdRun(items, i, k, tag) == [e] + rest;
      SectionHead(items, k, i, e, rest);
    }
  }

  /** The step of `DdRunAllDd`: one more entry in front of the run
      filed for the following items. */
  lemma SectionHead(items: seq<Node>, k: nat, i: nat, e: TagText, rest: seq<TagText>)
    requires i < k <= |items| && |rest| == k - (i + 1)
    requires e == TagText(e.tag, DdText(items[i]))
    requires forall j :: 0 <= j < |rest| ==> rest[j] == TagText(e.tag, DdText(items[i + 1 + j]))
    ensures var r := [e] + rest;
      |r| == k - i &&
      forall j :: 0 <= j < |r| ==> r[j] == TagText(e.tag, DdText(items[i + j]))
  {
    var r := [e] + rest;
    forall j | 0 <= j < |r| ensures r[j] == TagText(e.tag, DdText(items[i + j])) {
      if j > 0 {
        assert r[j] == rest[j - 1] && i + 1 + (j - 1) == i + j;
      }
    }
  }

  /** A child whose CSS classes include `block`: a description. */
  predicate IsBlock(n: Node) {
    n.Element? && "block" in n.classes
  }

  /** A child that `parse_one_method` hands to `parse_dl`. */
  predicate IsDl(n: Node) {
    n.Element? && !IsBlock(n) && n.name == "dl"
  }

  /** `children[2:]` of a method entry can be dispatched: text there has no
      attributes (an `AttributeError` in the parser), and every list has
      known headings. */
  predicate Dispatchable(cs: seq<Node>) {
    forall i :: 0 <= i < |cs| ==> cs[i].Element? && (IsDl(cs[i]) ==> DtsKnown(cs[i].children))
  }

  /** The description a method has after its first `n` children: the
      inner HTML of the last block among them, or the empty description
      when there is none. */
  function LastDescription(cs: seq<Node>, n: nat): string
    requires n <= |cs|
  {
    if n == 0 then ""
    else if IsBlock(cs[n - 1]) then cs[n - 1].inner
    else LastDescription(cs, n - 1)
  }

  /** Everything the list children among the first `n` children of a method
      entry file, in order. */
  function MethodEntries(cs: seq<Node>, n: nat): (r: seq<TagText>)
    requires Dispatchable(cs) && n <= |cs|
    ensures TagsIn(r, MethodTagKeys)
  {
    if n == 0 then []
    else
      var c := cs[n - 1];
      if IsDl(c) then
        DlEntriesTags(c.children, 0, None);
        TagsInConcat(MethodEntries(cs, n - 1), DlEntries(c.children, 0, None), MethodTagKeys);
        MethodEntries(cs, n - 1) + DlEntries(c.children, 0, None)
      else MethodEntries(cs, n - 1)
  }

  /** The children of an element without the bare line breaks between them. */
  function Significant(ns: seq<Node>): seq<Node> {
    if ns == [] then []
    else if ns[0] == Text("\n") then Significant(ns[1..])
    else [ns[0]] + Significant(ns[1..])
  }

  /** The filter keeps the order of the children: filtering two runs one
      after the other is filtering each of them. */
  lemma {:induction false} SignificantConcat(a: seq<Node>, b: seq<Node>)
    ensures Significant(a + b) == Significant(a) + Significant(b)
    decreases |a|
  {
    if a != [] {
      var x := a[0];
      var sa, sb := Significant(a[1..]), Significant(b);
      assert (a + b)[0] == x && (a + b)[1..] == a[1..] + b;
      SignificantConcat(a[1..], b);
      if x == Text("\n") {
        assert Significant(a + b) == sa + sb;
      } else {
        assert Significant(a + b) == [x] + (sa + sb);
        assert Significant(a) == [x] + sa;
        assert [x] + (sa + sb) == ([x] + sa) + sb;
      }
    } else {
      assert a + b == b;
    }
  }

  /** A single child is dropped exactly when it is a bare line break. */
  lemma SignificantOne(n: Node)
    ensures Significant([n]) == if n == Text("\n") then [] else [n]
  {
    assert [n][1..] == [];
  }

  /** The kept children are the children other than a bare line break. */
  lemma SignificantMembers(ns: seq<Node>)
    ensures forall n :: n in Significant(ns) <==> n in ns && n != Text("\n")
  {
    SignificantKept(ns);
    SignificantKeepsAll(ns);
  }

  /** No kept child is a bare line break, and each is a child. */
  lemma {:induction false} SignificantKept(ns: seq<Node>)
    ensures forall n :: n in Significant(ns) ==> n != Text("\n") && n in ns
    decreases |ns|
  {
    if ns != [] {
      var t := Significant(ns[1..]);
      SignificantKept(ns[1..]);
      var h := if ns[0] != Text("\n") then [ns[0]] else [];
      assert Significant(ns) == h + t;
      assert forall n :: n in ns[1..] ==> n in ns;
    }
  }

  /** Every child other than a bare line break is kept. */
  lemma {:induction false} SignificantKeepsAll(ns: seq<Node>)
    ensures forall n :: n in ns && n != Text("\n") ==> n in Significant(ns)
    decreases |ns|
  {
    if ns != [] {
      SignificantKeepsAll(ns[1..]);
      assert forall n :: n in ns ==> n == ns[0] || n in ns[1..];
    }
  }

  /** `s.replace('java.lang.', '')`: the package of the standard types is
      dropped from a definition. */
  function StripJavaLang(s: string): string {
    ReplaceAll(s, "java.lang.", "")
  }

  /** A method entry the parser can handle: an element with a definition
      child and children it can dispatch after that. */
  predicate MethodEntry(li: Node) {
    li.Element? && |Significant(li.children)| >= 2 && Dispatchable(Significant(li.children)[2..])
  }

  /** `parse_one_method(li)`: the method with the definition taken from the
      second child, the description of the last block and the tags filed
      by every list, in document order. */
  method ParseOneMethod(li: Node) returns (m: JavaMethod)
    requires MethodEntry(li)
    ensures fresh(m) && m.Valid()
    ensures var rest := Significant(li.children)[2..];
      m.definition == StripJavaLang(NodeText(Significant(li.children)[1])) &&
      m.description == LastDescription(rest, |rest|) &&
      m.atTags == ApplyAll(EmptyTagTable(), MethodEntries(rest, |rest|))
  {
    var children := Significant(li.children);
    m := new JavaMethod(ReplaceAll(NodeText(children[1]), "java.lang.", ""));
    var rest := children[2..];
    for i := 0 to |rest|
      invariant m.Valid() && m.definition == StripJavaLang(NodeText(children[1]))
      invariant m.description == LastDescription(rest, i)
      invariant m.atTags == ApplyAll(EmptyTagTable(), MethodEntries(rest, i))
    {
      ParseChild(rest, i, m);
    }
  }

  /** One pass of the loop of `parse_one_method`: a block sets the
      description, a list is handed to `parse_dl`, anything else is passed
      over. */
  method ParseChild(rest: seq<Node>, i: nat, m: JavaMethod)
    requires Dispatchable(rest) && i < |rest|
    requires m.Valid() && m.description == LastDescription(rest, i)
    requires m.atTags == ApplyAll(EmptyTagTable(), MethodEntries(rest, i))
    modifies m
    ensures m.Valid() && m.definition == old(m.definition)
    ensures m.description == LastDescription(rest, i + 1)
    ensures m.atTags == ApplyAll(EmptyTagTable(), MethodEntries(rest, i + 1))
  {
    var child := rest[i];
    if IsBlock(child) {
      m.SetDescription(child.inner);
      BlockChildStep(rest, i);
    } else if child.name == "dl" {
      ParseDl(child, m);
      DlChildStep(rest, i);
      ApplyAllConcat(EmptyTagTable(), MethodEntries(rest, i), DlEntries(child.children, 0, None));
    } else {
      OtherChildIgnored(rest, i);
    }
  }

  /** A block child sets the description and files nothing. */
  lemma BlockChildStep(cs: seq<Node>, n: nat)
    requires Dispatchable(cs) && n < |cs| && IsBlock(cs[n])
    ensures LastDescription(cs, n + 1) == cs[n].inner
    ensures MethodEntries(cs, n + 1) == MethodEntries(cs, n)
  {
    assert MethodEntries(cs, n + 1) == MethodEntries(cs, n) + [];
  }

  /** A list child keeps the description and files its entries after the
      earlier ones. */
  lemma DlChildStep(cs: seq<Node>, n: nat)
    requires Dispatchable(cs) && n < |cs| && IsDl(cs[n])
    ensures LastDescription(cs, n + 1) == LastDescription(cs, n)
    ensures MethodEntries(cs, n + 1) == MethodEntries(cs, n) + DlEntries(cs[n].children, 0, None)
  {
  }

  /** The last block child decides the description, whatever follows it. */
  lemma {:induction false} LastBlockWins(cs: seq<Node>, n: nat, j: nat)
    requires j < n <= |cs| && IsBlock(cs[j])
    requires forall i :: j < i < n ==> !IsBlock(cs[i])
    ensures LastDescription(cs, n) == cs[j].inner
    decreases n
  {
    if j < n - 1 {
      LastBlockWins(cs, n - 1, j);
    }
  }

  /** Without a block child the description stays empty. */
  lemma {:induction false} NoBlockNoDescription(cs: seq<Node>, n: nat)
    requires n <= |cs|
    requires forall i :: 0 <= i < n ==> !IsBlock(cs[i])
    ensures LastDescription(cs, n) == ""
    decreases n
  {
    if n > 0 {
      NoBlockNoDescription(cs, n - 1);
    }
  }

  /** A child that is neither a block nor a list changes nothing. */
  lemma OtherChildIgnored(cs: seq<Node>, n: nat)
    requires Dispatchable(cs) && n < |cs| && !IsBlock(cs[n]) && !IsDl(cs[n])
    ensures LastDescription(cs, n + 1) == LastDescription(cs, n)
    ensures MethodEntries(cs, n + 1) == MethodEntries(cs, n)
  {
  }

  /** A method's `@param`, `@throws` and `@return` lists hold exactly the
      texts filed under them by its lists, in document order. */
  lemma MethodTagTexts(cs: seq<Node>, k: string)
    requires Dispatchable(cs)
    ensures TextsOf(ApplyAll(EmptyTagTable(), MethodEntries(cs, |cs|)), k) == TextsFor(MethodEntries(cs, |cs|), k)
  {
    ApplyAllTexts(EmptyTagTable(), MethodEntries(cs, |cs|), k);
  }

  /** The class definition taken from the page header: line breaks become
      spaces and the package of the standard types is dropped. */
  function HeaderDefinition(pre: string): (r: string)
    ensures '\n' !in r
  {
    var flat := ReplaceAll(pre, "\n", " ");
    ReplaceCharRemovesIt(pre, '\n', " ");
    ReplaceKeepsCharOut(flat, "java.lang.", "", '\n');
    ReplaceAll(flat, "java.lang.", "")
  }

  /** A class whose definition comes from the page header opens its block
      on a single line of the stub: the definition followed by ` {`. */
  lemma HeaderLineSingle(c: JavaClass, pre: string)
    requires c.definition == HeaderDefinition(pre)
    ensures var l := c.Lines();
      |l| > 1 && l[1] == c.definition + " {" && '\n' !in l[1]
  {
    ClassLayout(c);
  }
}
