# Javadoc stub generator — Dafny model

`javadoc_stubs.py` reads the HTML pages that Javadoc writes for a Java
project and turns each class page into a Java stub. The stub holds the
class comment, the class definition, and for every constructor and method
its Javadoc comment and its signature with an empty body (or `;` in an
interface). This project models the part of that program that builds and
renders the stubs:

- `Strings` models the Python `str` operations the program relies on:
  `rstrip()`, `replace(old, new)`, `replace(old, new, 1)`, `sep.join(...)`
  and `in`. Strings are sequences of characters.
- `Javadoc` models `javadoc_comment` and the tag table it renders. A Python
  dict keeps its keys in insertion order, so the table is a sequence of
  `TagEntry(tag, texts)`.
- `Members` models the two records the parser fills in place. Both are
  classes with `modifies` clauses on their update methods:
  - `JavaMethod`: the definition, the tag table and the description,
    with `add_at_tag`, `set_description` and `format`;
  - `JavaClass`: the name, definition, description, constructors and
    methods, with `add_constructor`, `add_method` and `format`.
- `Parser` models `JavaDocParser.AT_TAGS`, `parse_dl`, `parse_one_method`
  and the normalisation of the class header text.
  - The BeautifulSoup tree is given as a `Node` value: a piece of text, or
    an element with a tag name, CSS classes, children and its serialized
    inner HTML.
  - `node.text` is the concatenation of all text below a node.
  - Each loop of the source is a method with loop invariants. It is proved
    against a function that says what the whole loop produces: `DlEntries`
    for `parse_dl`, and `LastDescription` / `MethodEntries` for
    `parse_one_method`.

Three facts about the rendered output follow from the code:

- A rendered comment has no blank line between the description and the tags.
- With no tags, a line holding only ` *` stays before the closing ` */`,
  because `rstrip()` only removes the trailing space of the last margin.
- A member of the stub is its comment, its definition and `;` or ` {}`;
  the stub holds nothing else for it.

## Model

| member | source | states |
|---|---|---|
| Strings.RStrip | javadoc_stubs.py:13 | `rstrip()` (defined; `Strings.RStripSpec` characterises it) |
| Strings.ReplaceAll | javadoc_stubs.py:12-13 | `replace(old, new)`, left to right without overlap (defined; characterised by the `Replace` lemmas below) |
| Strings.ReplaceFirst | javadoc_stubs.py:144 | `replace(old, new, 1)` (defined; `Strings.ReplaceFirstAt` and `Strings.ReplaceAbsent` characterise it) |
| Strings.Join | javadoc_stubs.py:39 | `sep.join(lines)` (defined; `Strings.JoinCons` and `Strings.JoinSnoc` characterise it) |
| Strings.Contains | javadoc_stubs.py:32 | `sub in s`: some index where `sub` occurs (defined) |
| Strings.RStripSpec | javadoc_stubs.py:13 | `rstrip()` gives the longest prefix that does not end in whitespace, and everything it removes is whitespace (Python's `isspace` set) |
| Strings.ReplaceFirstAt | javadoc_stubs.py:144 | `replace(' - ', ' ', 1)` replaces exactly the first occurrence and keeps the text around it |
| Strings.ReplaceAbsent | javadoc_stubs.py:12-13 | without an occurrence of the pattern, both kinds of `replace` leave the string unchanged |
| Strings.EscapeRoundTrip | javadoc_stubs.py:12-13 | replacing each line break by a line break plus a suffix, then the reverse, gives the original string |
| Strings.EscapedCharFollowed | javadoc_stubs.py:13 | after `replace('\n', '\n * ')`, every line break is followed by ` * ` |
| Strings.ReplaceCharRemovesIt | javadoc_stubs.py:101 | `replace('\n', ' ')` leaves no line break |
| Strings.ReplaceKeepsCharOut | javadoc_stubs.py:101 | `replace('java.lang.', '')` cannot bring a line break back |
| Strings.JoinCons | javadoc_stubs.py:39 | `'\n'.join` puts the first line before the others, behind one separator |
| Strings.JoinSnoc | javadoc_stubs.py:39 | `'\n'.join` puts the last line after the others, behind one separator |
| Javadoc.AppendTag | javadoc_stubs.py:54-55 | appending under a key keeps the keys and their order, adds the text at the end of that key's list, and leaves every other key's list unchanged |
| Javadoc.Prefixed | javadoc_stubs.py:9-11 | each tag line is the tag, a space and one text, in order |
| Javadoc.JavadocComment | javadoc_stubs.py:8-13 | `javadoc_comment` (defined; characterised by `Javadoc.CommentLayout`, `Javadoc.CommentIsBlock` and the lemmas below) |
| Javadoc.TagLines | javadoc_stubs.py:9-11 | one line per text, keys in table order (defined; `Javadoc.TagLinesSplit`, `Javadoc.EmptyKeyNoLines` and `Members.MethodTagOrder` characterise it) |
| Javadoc.CommentLayout | javadoc_stubs.py:8-13 | every comment is the opening, the stripped description and one margin line per tag line (a single empty one when there are none), stripped as a whole, then the closing line |
| Javadoc.EmptyComment | javadoc_stubs.py:8-13 | an empty description without tags renders as `/**`, ` * `, ` *` and ` */` on four lines |
| Javadoc.CommentIsBlock | javadoc_stubs.py:8-13 | every rendered comment starts with `/**` and a line break, ends with a line break and ` */`, and every line after the first starts with ` *` |
| Javadoc.CommentShape | javadoc_stubs.py:13 | indenting any body, stripping it and closing it gives a comment block |
| Javadoc.CommentWithTags | javadoc_stubs.py:8-13 | when the last tag line ends in visible text, the comment is the opening, the indented stripped description, every tag line with its margin in order, and the closing line |
| Javadoc.CommentWithoutTags | javadoc_stubs.py:8-13 | with no tag lines and a non-blank description, the comment is the opening, the indented description, a line holding only ` *`, and the closing line |
| Javadoc.IndentedComment | javadoc_stubs.py:13 | the final `rstrip()` removes nothing when the last tag line ends in visible text |
| Javadoc.IndentJoined | javadoc_stubs.py:9-13 | indenting the joined tag lines puts the margin in front of each line |
| Javadoc.CollapseUndoesIndent | javadoc_stubs.py:12 | `replace('\n ', '\n')` undoes the one-space indentation after each line break |
| Javadoc.MarginRoundTrip | javadoc_stubs.py:13 | the ` * ` margin can be taken off again and gives back the indented text |
| Javadoc.TagLinesSplit | javadoc_stubs.py:9-11 | the tag lines of a table are those of its first part followed by those of the rest, so keys render in table order |
| Javadoc.EmptyKeyNoLines | javadoc_stubs.py:9-11 | a key whose list is empty contributes no line |
| Members.EmptyTagTable | javadoc_stubs.py:47-51 | a new tag table has the keys `@param`, `@throws`, `@return` in that order, each with no text |
| Members.JavaMethod.constructor | javadoc_stubs.py:45-52 | a new method has the given definition, the empty tag table and an empty description |
| Members.JavaMethod.AddAtTag | javadoc_stubs.py:54-55 | the text goes to the end of that tag's list only; the keys, definition and description are unchanged, so `Valid()` is kept |
| Members.JavaMethod.SetDescription | javadoc_stubs.py:57-58 | the description is replaced; definition and tags are unchanged, so `Valid()` is kept |
| Members.JavaMethod.Format | javadoc_stubs.py:60-64 | two lines: the comment of the description and tags, then the definition ended by `;` in an interface and by ` {}` otherwise |
| Members.MethodTagOrder | javadoc_stubs.py:9-11 | a method's tag lines are all `@param` lines, then all `@throws` lines, then all `@return` lines, each in the order they were added |
| Members.BlockAt | javadoc_stubs.py:35-37 | with two lines per member, member `k` and its blank line occupy lines `3k` to `3k+2` |
| Members.MemberLines | javadoc_stubs.py:35-37 | the members take three lines each |
| Members.JavaClass.constructor | javadoc_stubs.py:18-23 | a new class has the given name, definition and description, and no members |
| Members.JavaClass.AddConstructor | javadoc_stubs.py:25-26 | the constructor is appended; methods and header are unchanged |
| Members.JavaClass.AddMethod | javadoc_stubs.py:28-29 | the method is appended; constructors and header are unchanged |
| Members.JavaClass.IsInterface | javadoc_stubs.py:32 | the class renders as an interface when `interface ` occurs in its definition (defined) |
| Members.JavaClass.HeaderLines | javadoc_stubs.py:33-34 | the class comment without tags, the definition with ` {`, an empty line (defined) |
| Members.JavaClass.Lines | javadoc_stubs.py:33-38 | the header lines, the member lines with constructors first, and `}` (defined; `Members.ClassLayout` and `Members.ClassMemberBlock` characterise it) |
| Members.JavaClass.Format | javadoc_stubs.py:31-39 | the stub text is the class stub's lines joined by line breaks |
| Members.AppendMembers | javadoc_stubs.py:35-37 | the loop appends each member's two lines and a blank line, in order |
| Members.ClassLayout | javadoc_stubs.py:31-39 | a stub has `4 + 3n` lines for `n` members: the class comment without tags, the definition opening a block, a blank line, and the closing brace last |
| Members.ClassMemberBlock | javadoc_stubs.py:31-37 | member `k` takes lines `3+3k` to `5+3k`: constructors first in the order added, then methods in the order added, each rendered for an interface exactly when the class is one |
| Members.MemberDefinitionLine | javadoc_stubs.py:31-39 | each member's definition line ends in `;` when the class definition contains `interface `, and in ` {}` otherwise |
| Members.ClassTextShape | javadoc_stubs.py:33-39 | the stub text starts with the class comment, the definition line and a blank line, and ends with a line break and `}` |
| Members.JoinedShape | javadoc_stubs.py:39 | joining header, members and closing brace gives that prefix and suffix |
| Parser.AtTagsTargetMethodKeys | javadoc_stubs.py:131-136 | every tag that `AT_TAGS` maps a heading to is a key of a method's tag table |
| Parser.DlEntries | javadoc_stubs.py:138-144 | what `parse_dl` files from item `i` on under the current category (defined; characterised by `Parser.SegmentEntries` and the lemmas after it) |
| Parser.DlEntriesTags | javadoc_stubs.py:138-144 | every entry a list files is under a key of the method's tag table |
| Parser.ApplyAll | javadoc_stubs.py:144 | appending a run of entries keeps the table's keys |
| Parser.ApplyAllTexts | javadoc_stubs.py:144 | after a run of entries, each key holds its old texts followed by exactly the texts filed under it, in order |
| Parser.ApplyAllConcat | javadoc_stubs.py:126 | filing two runs one after the other is filing both at once |
| Parser.ParseDl | javadoc_stubs.py:138-144 | the method's tags afterwards are its old tags with every entry the list files appended in document order; definition and description are unchanged |
| Parser.ParseDlItem | javadoc_stubs.py:140-144 | one item sets the category (a `dt`), is filed under it (a `dd` under a category), or changes nothing |
| Parser.SegmentEntries | javadoc_stubs.py:139-144 | a stretch of a list without a heading files exactly its `dd` items under the current category, in order, and nothing without one; the rest of the list is filed as if it started after the stretch |
| Parser.DdRun | javadoc_stubs.py:143-144 | the entries of a stretch under one tag: one per `dd`, in order; text and other elements file nothing (defined, characterised by `Parser.DdRunAllDd` and `Parser.SegmentEntries`) |
| Parser.DdRunAllDd | javadoc_stubs.py:143-144 | a stretch made only of `dd` items files one entry per item, in order, each its text with the first ` - ` made a space |
| Parser.NoDtNoEntries | javadoc_stubs.py:139-144 | every `dd` before the first heading is filed nowhere: the list files what it would if it began at that heading |
| Parser.SpecifiedByDrops | javadoc_stubs.py:135-144 | the `dd` items after `Specified by:`, up to the next heading, are dropped, and the rest files with no category set |
| Parser.SectionEntries | javadoc_stubs.py:141-144 | under a heading `AT_TAGS` maps to a tag, exactly the `dd` items up to the next heading are filed under that tag, in order, and the rest files under it too |
| Parser.Significant | javadoc_stubs.py:120 | the children without the bare line breaks (defined; characterised by the three lemmas below) |
| Parser.SignificantMembers | javadoc_stubs.py:120 | a node is kept exactly when it is a child and not a bare line break |
| Parser.SignificantConcat | javadoc_stubs.py:120 | the filter keeps document order: filtering two runs one after the other is filtering each |
| Parser.SignificantOne | javadoc_stubs.py:120 | a single child is dropped exactly when it is a bare line break |
| Parser.ParseOneMethod | javadoc_stubs.py:119-129 | the result has the second child's text without `java.lang.` as its definition, the inner HTML of the last block child as its description, and the tags filed by its lists in document order |
| Parser.ParseChild | javadoc_stubs.py:122-128 | a block child sets the description, a `dl` child files its entries after the earlier ones, and any other child changes nothing |
| Parser.BlockChildStep | javadoc_stubs.py:123-124 | a block child sets the description and files nothing |
| Parser.DlChildStep | javadoc_stubs.py:125-126 | a list child keeps the description and files its entries after the earlier ones |
| Parser.LastBlockWins | javadoc_stubs.py:122-124 | the last block child decides the description, whatever follows it |
| Parser.NoBlockNoDescription | javadoc_stubs.py:119-129 | with no block child the description stays empty |
| Parser.OtherChildIgnored | javadoc_stubs.py:127-128 | a child that is neither a block nor a list changes nothing |
| Parser.MethodTagTexts | javadoc_stubs.py:119-129 | each tag list of a parsed method holds exactly the texts its lists filed under that tag, in document order |
| Parser.HeaderDefinition | javadoc_stubs.py:101 | the class definition taken from the header holds no line break |
| Parser.HeaderLineSingle | javadoc_stubs.py:99-101 | a class built with that definition opens its block on one line of the stub: the definition and ` {` |
| Parser.AtTags | javadoc_stubs.py:131-136 | the four known headings with their tags, `Specified by:` mapped to no tag (a constant; `Parser.AtTagsTargetMethodKeys` states its targets) |
| Parser.LastDescription | javadoc_stubs.py:122-124 | the inner HTML of the last block among the first `n` children, empty without one (defined; `Parser.LastBlockWins` and `Parser.NoBlockNoDescription` characterise it) |
| Parser.MethodEntries | javadoc_stubs.py:122-126 | every entry the lists among the first `n` children file, in document order, all under method keys |
| Parser.StripJavaLang | javadoc_stubs.py:121 | `replace('java.lang.', '')` on the definition text (defined) |
| Parser.DdText | javadoc_stubs.py:144 | a `dd`'s text with its first ` - ` made a space (defined; `Strings.ReplaceFirstAt` and `Strings.ReplaceAbsent` characterise it) |

## Left out

- Reading files and directories is left out: `parse_folder`, `EXCLUDE_FILES`, opening and decoding files in `parse_file`, and writing the stubs in the `__main__` block.
- HTML parsing and the searches in `parse_file` are left out. These are the BeautifulSoup `find` calls and the constructor and method detail lists. The tree is given as a `Node` value. Only the header-definition normalisation of line 101 is modelled.
- The replacement of non-breaking spaces in the `__main__` block is left out, because it runs on the output file, not in the core.
- `_lazy_str`, `__repr__` and `__str__` are left out, because they are debugging output.
- Parser.ParseOneMethod: the `print('Unknown', child)` diagnostic for an unexpected child is modelled as skipping that child. Printing is output only.
- Parser.ParseOneMethod: `encode_contents()`, the serializer of a block's inner HTML, is not part of this model. A block element carries its serialized inner HTML as the `inner` field.
- Parser.ParseOneMethod requires at least two significant children. Fewer is an `IndexError` in the source, which the program does not handle.
- Parser.ParseOneMethod requires every child after the second to be an element. A text child there is an `AttributeError` in the source (text has no attributes), which the program does not handle.
- Parser.ParseDl requires every `dt` heading to be a key of `AT_TAGS`. An unknown heading is a `KeyError` in the source, which the program does not handle.
- Members.JavaMethod.AddAtTag requires the tag to be a key of the method's table. Any other tag is a `KeyError` in the source.
- The default argument `at_tags={}` of `javadoc_comment` is modelled as passing the empty table explicitly.
- Members.JavaMethod.Format takes `interface` explicitly; the default `interface=False` is the call `Format(false)`.
