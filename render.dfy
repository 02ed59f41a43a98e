/** The recursive renderer buildSpanBox and its helpers. A rendered box is
    kept as a structured value: the ordered entries of the `lines` slice,
    each child box nested as a value. BoxText turns it into the text that
    is written, with the styling backend taken as the identity. */
module Render {
  import opened Spans
  import opened Text

  /** Indentation of attribute bullets and of nested child boxes. */
  const ChildIndent: string := "  "

  /** isErrorAttribute: the keys and string values that mark an error. */
  function IsErrorAttribute(key: string, value: Value): (r: bool)
    ensures r <==> key in {"error", "error_code", "rpc.connect_rpc.error_code"}
                   || (value.Str? && value.s in {"error", "not_found"})
  {
    if key == "error" || key == "error_code" || key == "rpc.connect_rpc.error_code" then true
    else if value.Str? && (value.s == "error" || value.s == "not_found") then true
    else false
  }

  /** joinLabelValue, styling taken as the identity: the caption, two
      spaces, the value; both parts can be read back from the result. */
  function JoinLabelValue(caption: string, value: string): (r: string)
    ensures |r| == |caption| + 2 + |value|
    ensures r[..|caption|] == caption && r[|caption|..|caption| + 2] == "  " && r[|caption| + 2..] == value
  {
    caption + "  " + value
  }

  /** The text of an attribute bullet, before indentation and styling:
      the bullet, the key, " = ", the shown value; key and value can be
      read back from it. */
  function BulletText(key: string, shown: string): (r: string)
    ensures |r| == |key| + |shown| + 5
    ensures r[..2] == "• " && r[2..2 + |key|] == key
    ensures r[2 + |key|..5 + |key|] == " = " && r[5 + |key|..] == shown
  {
    "• " + key + " = " + shown
  }

  /** A field value; times are left unformatted. */
  datatype FieldValue = Plain(s: string) | Time(t: int) | Elapsed(d: int)

  /** One element of buildSpanBox's `lines` slice. */
  datatype Entry =
    | Field(caption: string, shown: FieldValue)
    | AttributesHeader
    | Bullet(key: string, attrValue: Value, emphasized: bool)
    | Child(box: Box)

  /** A rendered span: its entries, in the order they are appended. */
  datatype Box = Box(entries: seq<Entry>)

  /** A depth measure for the children map: each child's key ranks below
      its parent's key. It exists exactly when the links from a key to the
      keys of its listed children have no cycle anywhere in the map,
      reachable from a root or not; it makes the recursion of buildSpanBox
      stop. */
  ghost predicate Ranked(children: map<string, seq<Span>>, rank: map<string, nat>)
  {
    && (forall p :: p in children ==> p in rank)
    && (forall p, c :: p in children && c in children[p] ==>
          p in rank && Hex(c.id) in rank && rank[Hex(c.id)] < rank[p])
  }

  ghost function Depth(s: Span, children: map<string, seq<Span>>, rank: map<string, nat>): nat
    requires Ranked(children, rank)
  {
    if Hex(s.id) in children then rank[Hex(s.id)] + 1 else 0
  }

  /** childrenMap[span.SpanID().String()]: a missing key reads as the empty
      slice. */
  function KidsOf(s: Span, children: map<string, seq<Span>>): (r: seq<Span>)
    ensures Hex(s.id) !in children ==> r == []
    ensures forall c :: c in r <==> Hex(s.id) in children && c in children[Hex(s.id)]
  {
    if Hex(s.id) in children then children[Hex(s.id)] else []
  }

  lemma KidIsShallower(s: Span, children: map<string, seq<Span>>, rank: map<string, nat>, c: Span)
    requires Ranked(children, rank)
    requires c in KidsOf(s, children)
    ensures Depth(c, children, rank) < Depth(s, children, rank)
  {
  }

  /** The fixed field entries: name, trace ID, span ID, the parent ID when
      it is valid, start, end and duration. */
  function FieldEntries(s: Span): (r: seq<Entry>)
    ensures |r| == HeaderIndex(s)
    ensures r[0] == Field("Span Name:", Plain(s.name))
    ensures r[1] == Field("TraceID:", Plain(Hex(s.traceId)))
    ensures r[2] == Field("SpanID:", Plain(Hex(s.id)))
    ensures IsValid(s.parent) ==> r[3] == Field("ParentSpan:", Plain(Hex(s.parent)))
    ensures r[|r| - 3] == Field("Start Time:", Time(s.start))
    ensures r[|r| - 2] == Field("End Time:", Time(s.end))
    ensures r[|r| - 1] == Field("Duration:", Elapsed(s.end - s.start))
  {
    [Field("Span Name:", Plain(s.name)),
     Field("TraceID:", Plain(Hex(s.traceId))),
     Field("SpanID:", Plain(Hex(s.id)))]
    + (if IsValid(s.parent) then [Field("ParentSpan:", Plain(Hex(s.parent)))] else [])
    + [Field("Start Time:", Time(s.start)),
       Field("End Time:", Time(s.end)),
       Field("Duration:", Elapsed(s.end - s.start))]
  }

  /** The bullet of one attribute, emphasized when isErrorAttribute says so. */
  function BulletOf(a: Attribute): Entry
  {
    Bullet(a.key, a.value, IsErrorAttribute(a.key, a.value))
  }

  /** What buildSpanBox builds for `s`: the field entries, the attributes
      header, one bullet per attribute, one nested box per child. */
  function SpanBox(s: Span, children: map<string, seq<Span>>, ghost rank: map<string, nat>): (r: Box)
    requires Ranked(children, rank)
    ensures |r.entries| == HeaderIndex(s) + 1 + |s.attrs| + |KidsOf(s, children)|
    decreases Depth(s, children, rank), 1
  {
    Box(FieldEntries(s) + [AttributesHeader] + Bullets(s.attrs) + ChildBoxes(s, children, rank))
  }

  /** One bullet per attribute, in attribute order. */
  function Bullets(attrs: seq<Attribute>): (r: seq<Entry>)
    ensures |r| == |attrs|
  {
    seq(|attrs|, i requires 0 <= i < |attrs| => BulletOf(attrs[i]))
  }

  /** One nested box per child of `s`, in child-list order. */
  function ChildBoxes(s: Span, children: map<string, seq<Span>>, ghost rank: map<string, nat>): (r: seq<Entry>)
    requires Ranked(children, rank)
    ensures |r| == |KidsOf(s, children)|
    decreases Depth(s, children, rank), 0
  {
    var kids := KidsOf(s, children);
    seq(|kids|, j requires 0 <= j < |kids| =>
          (KidIsShallower(s, children, rank, kids[j]);
           Child(SpanBox(kids[j], children, rank))))
  }

  /** Index of the attributes header in a span's box. */
  function HeaderIndex(s: Span): nat
  {
    if IsValid(s.parent) then 7 else 6
  }

  /** Entry of the box of `s` that holds the box of child j. */
  lemma ChildEntryOf(s: Span, children: map<string, seq<Span>>, rank: map<string, nat>, j: nat)
    requires Ranked(children, rank)
    requires j < |KidsOf(s, children)|
    ensures var e := SpanBox(s, children, rank).entries;
            HeaderIndex(s) + 1 + |s.attrs| + j < |e|
            && e[HeaderIndex(s) + 1 + |s.attrs| + j] == Child(SpanBox(KidsOf(s, children)[j], children, rank))
  {
  }

  /** Entry of the box of `s` that holds the bullet of attribute i. */
  lemma BulletEntryOf(s: Span, children: map<string, seq<Span>>, rank: map<string, nat>, i: nat)
    requires Ranked(children, rank)
    requires i < |s.attrs|
    ensures var e := SpanBox(s, children, rank).entries;
            HeaderIndex(s) + 1 + i < |e| && e[HeaderIndex(s) + 1 + i] == BulletOf(s.attrs[i])
  {
  }

  /** The layout of a span's box: the fields in their fixed order, the
      header, the bullets in attribute order, then the child boxes in
      child-list order; 7 entries plus one for a valid parent, plus one per
      attribute and one per child. */
  lemma SpanBoxLayout(s: Span, children: map<string, seq<Span>>, rank: map<string, nat>)
    requires Ranked(children, rank)
    ensures var e := SpanBox(s, children, rank).entries;
            var h := HeaderIndex(s);
            var kids := KidsOf(s, children);
            && |e| == 7 + (if IsValid(s.parent) then 1 else 0) + |s.attrs| + |kids|
            && e[0] == Field("Span Name:", Plain(s.name))
            && e[1] == Field("TraceID:", Plain(Hex(s.traceId)))
            && e[2] == Field("SpanID:", Plain(Hex(s.id)))
            && (IsValid(s.parent) ==> e[3] == Field("ParentSpan:", Plain(Hex(s.parent))))
            && e[h - 3] == Field("Start Time:", Time(s.start))
            && e[h - 2] == Field("End Time:", Time(s.end))
            && e[h - 1] == Field("Duration:", Elapsed(s.end - s.start))
            && e[h] == AttributesHeader
            && (forall i :: 0 <= i < |s.attrs| ==> e[h + 1 + i] == BulletOf(s.attrs[i]))
            && (forall j :: 0 <= j < |kids| ==>
                  e[h + 1 + |s.attrs| + j] == Child(SpanBox(kids[j], children, rank)))
  {
    SpanBoxHead(s, children, rank);
    forall i | 0 <= i < |s.attrs|
      ensures SpanBox(s, children, rank).entries[HeaderIndex(s) + 1 + i] == BulletOf(s.attrs[i])
    {
      BulletEntryOf(s, children, rank, i);
    }
    forall j | 0 <= j < |KidsOf(s, children)|
      ensures SpanBox(s, children, rank).entries[HeaderIndex(s) + 1 + |s.attrs| + j]
              == Child(SpanBox(KidsOf(s, children)[j], children, rank))
    {
      ChildEntryOf(s, children, rank, j);
    }
  }

  /** The head of a span's box: its field entries then the header. */
  lemma SpanBoxHead(s: Span, children: map<string, seq<Span>>, rank: map<string, nat>)
    requires Ranked(children, rank)
    ensures var e := SpanBox(s, children, rank).entries;
            e[..HeaderIndex(s)] == FieldEntries(s) && e[HeaderIndex(s)] == AttributesHeader
  {
  }

  /** buildSpanBox: appends the field lines, the header and the bullets to
      `lines`, then the box of every child, built recursively. */
  method BuildSpanBox(span: Span, children: map<string, seq<Span>>, ghost rank: map<string, nat>)
    returns (box: Box)
    requires Ranked(children, rank)
    ensures box == SpanBox(span, children, rank)
    decreases Depth(span, children, rank)
  {
    var lines: seq<Entry> := [];
    lines := lines + [Field("Span Name:", Plain(span.name))];
    lines := lines + [Field("TraceID:", Plain(Hex(span.traceId)))];
    lines := lines + [Field("SpanID:", Plain(Hex(span.id)))];
    if IsValid(span.parent) {
      lines := lines + [Field("ParentSpan:", Plain(Hex(span.parent)))];
    }
    lines := lines + [Field("Start Time:", Time(span.start))];
    lines := lines + [Field("End Time:", Time(span.end))];
    lines := lines + [Field("Duration:", Elapsed(span.end - span.start))];
    assert lines == FieldEntries(span);

    lines := lines + [AttributesHeader];
    ghost var head := lines;
    for i := 0 to |span.attrs|
      invariant lines == head + Bullets(span.attrs[..i])
    {
      var attr := span.attrs[i];
      var emphasized := false;
      if IsErrorAttribute(attr.key, attr.value) {
        emphasized := true;
      }
      lines := lines + [Bullet(attr.key, attr.value, emphasized)];
      assert Bullets(span.attrs[..i + 1]) == Bullets(span.attrs[..i]) + [BulletOf(attr)];
    }
    assert span.attrs[..|span.attrs|] == span.attrs;

    var kids := KidsOf(span, children);
    ghost var body := lines;
    ghost var boxes := ChildBoxes(span, children, rank);
    for j := 0 to |kids|
      invariant lines == body + boxes[..j]
    {
      KidIsShallower(span, children, rank, kids[j]);
      var childBox := BuildSpanBox(kids[j], children, rank);
      lines := lines + [Child(childBox)];
      assert boxes[..j + 1] == boxes[..j] + [Child(childBox)];
    }
    assert boxes[..|kids|] == boxes;
    box := Box(lines);
  }

  /** `t` is `s` or is reached through the child lists from `s`: the spans
      whose boxes SpanBox(s, ...) contains. */
  ghost predicate Reaches(s: Span, t: Span, children: map<string, seq<Span>>, rank: map<string, nat>)
    requires Ranked(children, rank)
    decreases Depth(s, children, rank)
  {
    var kids := KidsOf(s, children);
    t == s || exists j | 0 <= j < |kids| :: (KidIsShallower(s, children, rank, kids[j]);
                                              Reaches(kids[j], t, children, rank))
  }

  /** Every list of the map holds spans of `spans` whose valid parent has
      the list's key. */
  ghost predicate KeyedBy(children: map<string, seq<Span>>, spans: seq<Span>)
  {
    forall p, c :: p in children && c in children[p] ==>
      c in spans && IsValid(c.parent) && Hex(c.parent) == p
  }

  /** Every span reached from `s`, other than `s` itself, is an input span
      whose parent is the span ID of another reached span. */
  lemma {:induction false} ReachedHasReachedParent(s: Span, children: map<string, seq<Span>>,
                                                   rank: map<string, nat>, spans: seq<Span>, t: Span)
    requires Ranked(children, rank) && KeyedBy(children, spans)
    requires Reaches(s, t, children, rank) && t != s
    ensures t in spans && IsValid(t.parent)
    ensures exists u :: Reaches(s, u, children, rank) && t.parent == u.id
    decreases Depth(s, children, rank)
  {
    var kids := KidsOf(s, children);
    var j :| 0 <= j < |kids| && Reaches(kids[j], t, children, rank);
    var c := kids[j];
    KidIsShallower(s, children, rank, c);
    assert c in children[Hex(s.id)];
    if t == c {
      HexInjective(c.parent, s.id);
      assert Reaches(s, s, children, rank);
    } else {
      ReachedHasReachedParent(c, children, rank, spans, t);
      var u :| Reaches(c, u, children, rank) && t.parent == u.id;
      assert Reaches(s, u, children, rank);
    }
  }

  /** The formatting collaborators: time.Format with the printer's layout,
      Duration.String, and fmt's %v for attribute values. */
  datatype Formats = Formats(time: int -> string, duration: int -> string, value: Value -> string)

  function FieldText(v: FieldValue, f: Formats): string
  {
    match v
    case Plain(s) => s
    case Time(t) => f.time(t)
    case Elapsed(d) => f.duration(d)
  }

  /** The text of one entry of `lines`; a child box is indented with
      indentAllLines, so its lines are the child's lines, each prefixed
      with the child indent. */
  function EntryText(e: Entry, f: Formats): (r: string)
    ensures e.Child? ==> Split(r) == Indented(Split(BoxText(e.box, f)), ChildIndent)
    decreases e, 1
  {
    match e
    case Field(caption, v) => JoinLabelValue(caption, FieldText(v, f))
    case AttributesHeader => "Attributes:"
    case Bullet(key, value, _) => ChildIndent + BulletText(key, f.value(value))
    case Child(b) =>
      IndentLinesSplit(BoxText(b, f), ChildIndent);
      IndentLines(BoxText(b, f), ChildIndent)
  }

  /** The entries joined vertically, one below the other. */
  function BoxText(b: Box, f: Formats): string
    decreases b, 0
  {
    Join(seq(|b.entries|, i requires 0 <= i < |b.entries| => EntryText(b.entries[i], f)))
  }

  /** The lines of a box's text. */
  function BoxLines(b: Box, f: Formats): seq<string>
  {
    Split(BoxText(b, f))
  }

  /** The lines of each entry's text, entry by entry. */
  function EntryLines(b: Box, f: Formats): (r: seq<seq<string>>)
    ensures |r| == |b.entries|
  {
    seq(|b.entries|, i requires 0 <= i < |b.entries| => Split(EntryText(b.entries[i], f)))
  }

  /** Where the lines of entry j start among the lines of the box. */
  function EntryOffset(b: Box, f: Formats, j: nat): nat
    requires j <= |b.entries|
  {
    TotalLength(EntryLines(b, f)[..j])
  }

  /** The lines of each entry appear, contiguously and unchanged, among the
      lines of the box. */
  lemma EntryLinesInBox(b: Box, f: Formats, j: nat)
    requires j < |b.entries|
    ensures var lines := Split(EntryText(b.entries[j], f));
            var off := EntryOffset(b, f, j);
            off + |lines| <= |BoxLines(b, f)| && BoxLines(b, f)[off..off + |lines|] == lines
  {
    var texts := seq(|b.entries|, i requires 0 <= i < |b.entries| => EntryText(b.entries[i], f));
    SplitJoinFlatten(texts);
    assert seq(|texts|, i requires 0 <= i < |texts| => Split(texts[i])) == EntryLines(b, f);
    FlattenSlice(EntryLines(b, f), j);
  }

  /** A child box's lines, each prefixed with the child indent, appear
      contiguously among the lines of its parent's box. */
  lemma ChildLinesInBox(b: Box, f: Formats, j: nat, child: Box)
    requires j < |b.entries| && b.entries[j] == Child(child)
    ensures var inner := Indented(BoxLines(child, f), ChildIndent);
            var off := EntryOffset(b, f, j);
            off + |inner| <= |BoxLines(b, f)| && BoxLines(b, f)[off..off + |inner|] == inner
  {
    IndentLinesSplit(BoxText(child, f), ChildIndent);
    EntryLinesInBox(b, f, j);
  }

  /** The slice of a flattened list that came from one component. */
  lemma {:induction false} FlattenSlice(xss: seq<seq<string>>, j: int)
    requires 0 <= j < |xss|
    ensures var off := TotalLength(xss[..j]);
            off + |xss[j]| <= |Flatten(xss)| && Flatten(xss)[off..off + |xss[j]|] == xss[j]
  {
    if j > 0 {
      FlattenSlice(xss[1..], j - 1);
      assert xss[1..][..j - 1] == xss[..j][1..];
      assert xss[1..][j - 1] == xss[j];
    } else {
      assert xss[..0] == [];
    }
  }

  /** The same box with every bullet in the normal style. */
  function Unemphasized(b: Box): (r: Box)
    ensures |r.entries| == |b.entries|
    decreases b
  {
    Box(seq(|b.entries|, i requires 0 <= i < |b.entries| => UnemphasizedEntry(b.entries[i])))
  }

  function UnemphasizedEntry(e: Entry): Entry
    decreases e
  {
    match e
    case Bullet(key, v, _) => Bullet(key, v, false)
    case Child(b) => Child(Unemphasized(b))
    case _ => e
  }

  /** Emphasis is styling only: clearing it changes no character of the
      text of any box, nested boxes included. This holds because styling is
      taken as the identity, so EntryText does not read the flag; it records
      that the flag is the only thing isErrorAttribute decides. */
  lemma {:induction false} EmphasisLeavesTextUnchanged(b: Box, f: Formats)
    ensures BoxText(Unemphasized(b), f) == BoxText(b, f)
    decreases b
  {
    var u := Unemphasized(b);
    forall i | 0 <= i < |b.entries|
      ensures EntryText(u.entries[i], f) == EntryText(b.entries[i], f)
    {
      var e := b.entries[i];
      assert u.entries[i] == UnemphasizedEntry(e);
      match e
      case Child(c) =>
        EmphasisLeavesTextUnchanged(c, f);
      case _ =>
        assert EntryText(UnemphasizedEntry(e), f) == EntryText(e, f);
    }
    assert seq(|u.entries|, i requires 0 <= i < |u.entries| => EntryText(u.entries[i], f))
        == seq(|b.entries|, i requires 0 <= i < |b.entries| => EntryText(b.entries[i], f));
  }

  /** Containment: the box of every child of `s`, indented by the child
      indent line by line, appears contiguously within the box of `s`,
      after the fields, the header and the bullets. */
  lemma ChildBoxNested(s: Span, children: map<string, seq<Span>>, rank: map<string, nat>,
                       f: Formats, j: nat)
    requires Ranked(children, rank)
    requires j < |KidsOf(s, children)|
    ensures var parent := SpanBox(s, children, rank);
            var child := SpanBox(KidsOf(s, children)[j], children, rank);
            var inner := Indented(BoxLines(child, f), ChildIndent);
            var off := EntryOffset(parent, f, HeaderIndex(s) + 1 + |s.attrs| + j);
            off + |inner| <= |BoxLines(parent, f)| && BoxLines(parent, f)[off..off + |inner|] == inner
  {
    var parent := SpanBox(s, children, rank);
    var child := SpanBox(KidsOf(s, children)[j], children, rank);
    var k := HeaderIndex(s) + 1 + |s.attrs| + j;
    ChildEntryOf(s, children, rank, j);
    ChildLinesInBox(parent, f, k, child);
  }

  /** A bullet entry whose key and shown value hold no newline is one line
      of the box, at the entry's offset. */
  lemma BulletLineInBox(b: Box, f: Formats, k: nat, key: string, v: Value, emphasized: bool)
    requires k < |b.entries| && b.entries[k] == Bullet(key, v, emphasized)
    requires '\n' !in key && '\n' !in f.value(v)
    ensures var off := EntryOffset(b, f, k);
            off < |BoxLines(b, f)| && BoxLines(b, f)[off] == ChildIndent + BulletText(key, f.value(v))
  {
    var line := ChildIndent + BulletText(key, f.value(v));
    assert line == "  • " + key + " = " + f.value(v);
    SplitSingleLine(line);
    EntryLinesInBox(b, f, k);
  }

  /** Attribute fidelity: attribute i shows up as exactly one line of the
      box, "  • key = value", whatever its emphasis, provided key and shown
      value hold no newline. */
  lemma AttributeLine(s: Span, children: map<string, seq<Span>>, rank: map<string, nat>,
                      f: Formats, i: nat)
    requires Ranked(children, rank)
    requires i < |s.attrs|
    requires '\n' !in s.attrs[i].key && '\n' !in f.value(s.attrs[i].value)
    ensures var b := SpanBox(s, children, rank);
            var off := EntryOffset(b, f, HeaderIndex(s) + 1 + i);
            off < |BoxLines(b, f)|
            && BoxLines(b, f)[off] == ChildIndent + BulletText(s.attrs[i].key, f.value(s.attrs[i].value))
  {
    var a := s.attrs[i];
    BulletEntryOf(s, children, rank, i);
    BulletLineInBox(SpanBox(s, children, rank), f, HeaderIndex(s) + 1 + i,
                    a.key, a.value, IsErrorAttribute(a.key, a.value));
  }
}
