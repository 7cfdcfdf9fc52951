/**
 * The download action: first the node list is saved as JSON, then the
 * report's content is assembled (an optional picture of the board, a
 * title, a heading and one group of lines per node) and handed to the
 * document renderer.
 */
module DownloadPdf {
  import opened Family

  datatype Align = Start | Center
  datatype Margin = Margin(left: int, top: int, right: int, bottom: int)

  /** One content block handed to the document renderer. */
  datatype Block =
    | Picture(dataUrl: string, width: int, imageMargin: Margin)
    | Text(text: string, fontSize: int, bold: bool, align: Align, margin: Option<Margin>)

  /** The two files the action produces, in the order it produces them. */
  datatype Effect =
    | SaveJson(fileName: string, nodes: seq<Person>)
    | SavePdf(fileName: string, pageSize: string, pageMargins: Margin, content: seq<Block>)

  const JsonFileName: string := "family_tree.json"
  const PdfFileName: string := "family_tree.pdf"
  const PageSize: string := "A4"
  const PageMargins: Margin := Margin(20, 20, 20, 20)

  const TitleBlock: Block :=
    Text(">----------<[ Family Tree ]>----------<", 24, false, Center, Some(Margin(0, 10, 0, 20)))
  const HeadingBlock: Block :=
    Text("\U{2139}\U{FE0F} Описание семьи", 18, false, Start, Some(Margin(0, 0, 0, 10)))
  const SeparatorBlock: Block :=
    Text("------------------------------------------------------", 12, false, Start, Some(Margin(0, 5, 0, 10)))
  const BiographyLabel: Block := Text("Биография:", 12, true, Start, None)

  const NamePrefix: string := "\U{270F}\U{FE0F} Имя: "
  const BirthYearPrefix: string := "\U{1F4C5} Год рождения: "
  const LocationPrefix: string := "\U{1F303} Место рождения: "

  /** The board snapshot, when one was rendered. */
  function PictureBlock(dataUrl: string): Block
  {
    Picture(dataUrl, 555, Margin(20, 20, 20, 20))
  }

  /** A plain 12-point line. */
  function Line(text: string): Block
  {
    Text(text, 12, false, Start, None)
  }

  /** The line for an attribute when it is truthy, nothing otherwise. */
  function Optional(fields: map<Key, Value>, k: Key, prefix: string): seq<Block>
  {
    if Truthy(fields, k) then [Line(prefix + Render(fields, k))] else []
  }

  /** The biography's label and text when it is truthy, nothing otherwise. */
  function BiographyLines(fields: map<Key, Value>): seq<Block>
  {
    if Truthy(fields, Biography) then [BiographyLabel, Line(Render(fields, Biography))] else []
  }

  /** The group of lines for one node. */
  function Entry(p: Person): seq<Block>
  {
    [Line(NamePrefix + Render(p.fields, Name))]
    + Optional(p.fields, BirthYear, BirthYearPrefix)
    + Optional(p.fields, Location, LocationPrefix)
    + BiographyLines(p.fields)
    + [SeparatorBlock]
  }

  /** The pieces `f` makes of each element, concatenated in list order. */
  function Concat<T, U>(f: T -> seq<U>, xs: seq<T>): seq<U>
  {
    if xs == [] then [] else Concat(f, xs[..|xs| - 1]) + f(xs[|xs| - 1])
  }

  /** The groups of all nodes, in list order. */
  function Entries(nodes: seq<Person>): seq<Block>
  {
    Concat(Entry, nodes)
  }

  /** The blocks before the first group. */
  function Preamble(image: Option<string>): (r: seq<Block>)
    ensures |r| == 2 + Count(image.Some?)
    ensures image.Some? ==> r[0] == PictureBlock(image.value)
    ensures r[|r| - 2] == TitleBlock && r[|r| - 1] == HeadingBlock
  {
    (if image.Some? then [PictureBlock(image.value)] else []) + [TitleBlock, HeadingBlock]
  }

  /** The report's whole content. */
  function ReportContent(nodes: seq<Person>, image: Option<string>): seq<Block>
  {
    Preamble(image) + Entries(nodes)
  }

  /** The blocks pushed before the per-node loop: the picture if any, the title, the heading. */
  method StartContent(image: Option<string>) returns (content: seq<Block>)
    ensures content == Preamble(image)
  {
    content := [];
    if image.Some? {
      content := content + [PictureBlock(image.value)];
    }
    content := content + [TitleBlock];
    content := content + [HeadingBlock];
  }

  /** The body of the per-node loop: append the node's group of lines. */
  method AppendEntry(content: seq<Block>, p: Person) returns (grown: seq<Block>)
    ensures grown == content + Entry(p)
  {
    ghost var name, year, place, bio := [Line(NamePrefix + Render(p.fields, Name))],
      Optional(p.fields, BirthYear, BirthYearPrefix), Optional(p.fields, Location, LocationPrefix),
      BiographyLines(p.fields);
    grown := content + [Line(NamePrefix + Render(p.fields, Name))];
    if Truthy(p.fields, BirthYear) {
      grown := grown + [Line(BirthYearPrefix + Render(p.fields, BirthYear))];
    }
    assert grown == content + name + year;
    if Truthy(p.fields, Location) {
      grown := grown + [Line(LocationPrefix + Render(p.fields, Location))];
    }
    assert grown == content + name + year + place;
    if Truthy(p.fields, Biography) {
      grown := grown + [BiographyLabel, Line(Render(p.fields, Biography))];
    }
    assert grown == content + name + year + place + bio;
    grown := grown + [SeparatorBlock];
    AppendGroup(content, name, year, place, bio, [SeparatorBlock]);
  }

  /** Appending a group of five pieces at once or one piece at a time gives the same list. */
  lemma AppendGroup(c: seq<Block>, a: seq<Block>, b: seq<Block>, d: seq<Block>, e: seq<Block>, f: seq<Block>)
    ensures c + a + b + d + e + f == c + (a + b + d + e + f)
  {
  }

  /** One more node adds its group at the end of the report. */
  lemma ReportGrows(nodes: seq<Person>, i: nat, image: Option<string>)
    requires i < |nodes|
    ensures ReportContent(nodes[..i + 1], image) == ReportContent(nodes[..i], image) + Entry(nodes[i])
  {
    var front, group := nodes[..i], Entry(nodes[i]);
    assert nodes[..i + 1][..i] == front;
    assert Entries(nodes[..i + 1]) == Entries(front) + group;
    var pre := Preamble(image);
    assert pre + (Entries(front) + group) == (pre + Entries(front)) + group;
  }

  /**
   * `DownloadPDF`: the JSON download is triggered first; the content is
   * then grown block by block, node by node, and handed to the renderer.
   */
  method Download(nodes: seq<Person>, image: Option<string>) returns (effects: seq<Effect>)
    ensures effects == [SaveJson(JsonFileName, nodes),
                        SavePdf(PdfFileName, PageSize, PageMargins, ReportContent(nodes, image))]
  {
    effects := [SaveJson(JsonFileName, nodes)];
    var content := StartContent(image);
    for i := 0 to |nodes|
      invariant content == ReportContent(nodes[..i], image)
    {
      content := AppendEntry(content, nodes[i]);
      ReportGrows(nodes, i, image);
    }
    assert nodes[..|nodes|] == nodes;
    effects := effects + [SavePdf(PdfFileName, PageSize, PageMargins, content)];
  }

  function Count(b: bool): nat { if b then 1 else 0 }

  /** The number of blocks a node contributes: name, separator and each present attribute. */
  function EntrySize(p: Person): nat
  {
    2 + Count(Truthy(p.fields, BirthYear)) + Count(Truthy(p.fields, Location)) + 2 * Count(Truthy(p.fields, Biography))
  }

  function TotalEntrySize(nodes: seq<Person>): nat
  {
    if nodes == [] then 0 else EntrySize(nodes[0]) + TotalEntrySize(nodes[1..])
  }

  /** A group starts with the name line and ends with the separator. */
  lemma EntryShape(p: Person)
    ensures |Entry(p)| == EntrySize(p)
    ensures Entry(p)[0] == Line(NamePrefix + Render(p.fields, Name))
    ensures Entry(p)[|Entry(p)| - 1] == SeparatorBlock
    ensures forall i :: 0 <= i < |Entry(p)| ==> Entry(p)[i].Text?
  {
  }

  /** Concatenating per element splits over list concatenation, so groups follow node order. */
  lemma {:induction false} ConcatAppend<T, U>(f: T -> seq<U>, a: seq<T>, b: seq<T>)
    ensures Concat(f, a + b) == Concat(f, a) + Concat(f, b)
    decreases |b|
  {
    if b == [] {
      assert a + b == a;
    } else {
      var b', last := b[..|b| - 1], b[|b| - 1];
      assert (a + b)[..|a + b| - 1] == a + b';
      assert (a + b)[|a + b| - 1] == last;
      ConcatAppend(f, a, b');
    }
  }

  /**
   * The report has 2 + [image] + the sum over nodes of
   * (2 + [birthYear] + [location] + 2 * [biography]) blocks.
   */
  lemma {:induction false} ReportSize(nodes: seq<Person>, image: Option<string>)
    ensures |ReportContent(nodes, image)| == 2 + Count(image.Some?) + TotalEntrySize(nodes)
  {
    EntriesSize(nodes);
  }

  lemma {:induction false} EntriesSize(nodes: seq<Person>)
    ensures |Entries(nodes)| == TotalEntrySize(nodes)
    decreases |nodes|
  {
    if nodes != [] {
      var rest := nodes[1..];
      assert nodes == [nodes[0]] + rest;
      ConcatAppend(Entry, [nodes[0]], rest);
      assert [nodes[0]][..0] == [];
      EntryShape(nodes[0]);
      EntriesSize(rest);
    }
  }

  /** Every block of every group is text. */
  lemma {:induction false} EntriesAllText(nodes: seq<Person>)
    ensures forall i :: 0 <= i < |Entries(nodes)| ==> Entries(nodes)[i].Text?
    decreases |nodes|
  {
    if nodes != [] {
      var front, last := nodes[..|nodes| - 1], nodes[|nodes| - 1];
      EntriesAllText(front);
      EntryShape(last);
      var all := Entries(nodes);
      assert all == Entries(front) + Entry(last);
      forall i | 0 <= i < |all| ensures all[i].Text? {
        if i >= |Entries(front)| {
          assert all[i] == Entry(last)[i - |Entries(front)|];
        }
      }
    }
  }

  /** The picture, when there is one, is the first block and the only picture. */
  lemma PictureOnlyFirst(nodes: seq<Person>, image: Option<string>)
    ensures image.Some? ==> ReportContent(nodes, image)[0] == PictureBlock(image.value)
    ensures forall i :: Count(image.Some?) <= i < |ReportContent(nodes, image)| ==> ReportContent(nodes, image)[i].Text?
  {
    EntriesAllText(nodes);
    var pre := Preamble(image);
    var r := ReportContent(nodes, image);
    forall i | Count(image.Some?) <= i < |r| ensures r[i].Text? {
      if i >= |pre| {
        assert r[i] == Entries(nodes)[i - |pre|];
      }
    }
  }

  /** Merging a `birthDate` into a node leaves its group of lines as it was. */
  lemma EntryIgnoresBirthDate(p: Person, v: Value)
    ensures Entry(Merge(p, map[BirthDate := v])) == Entry(p)
  {
    var q := Merge(p, map[BirthDate := v]);
    forall k | k != BirthDate
      ensures Truthy(q.fields, k) == Truthy(p.fields, k) && Render(q.fields, k) == Render(p.fields, k)
    {
      assert k !in map[BirthDate := v];
    }
  }

  /** The groups of a node list ignore every `birthDate` edit. */
  lemma {:induction false} EntriesIgnoreBirthDate(nodes: seq<Person>, id: int, v: Value)
    ensures Entries(ApplyEdit(nodes, id, map[BirthDate := v])) == Entries(nodes)
    decreases |nodes|
  {
    var patch := map[BirthDate := v];
    var edited := ApplyEdit(nodes, id, patch);
    if nodes != [] {
      var k := |nodes| - 1;
      var front := nodes[..k];
      assert edited[..k] == ApplyEdit(front, id, patch);
      EntriesIgnoreBirthDate(front, id, v);
      if nodes[k].id == id {
        EntryIgnoresBirthDate(nodes[k], v);
      }
    }
  }

  /**
   * The inline form writes `birthDate`, the report reads `birthYear`: an
   * edit of the birth date never changes the report.
   */
  lemma BirthDateEditInvisible(nodes: seq<Person>, id: int, v: Value, image: Option<string>)
    ensures ReportContent(ApplyEdit(nodes, id, map[BirthDate := v]), image) == ReportContent(nodes, image)
  {
    EntriesIgnoreBirthDate(nodes, id, v);
  }
}
