/** The event reader of client/stream.go (section 9.2.6 of the WHATWG HTML standard, for the
    fields that the client keeps), from the text of a stream to its events and back.
    Lines are what the scanner makes of the text. */
module ServerSentEvents {

  import opened Text
  import opened Wrappers

  datatype Event = Event(event: string, data: string, id: string, retry: nat)

  /** What has been read of an event so far. */
  datatype Partial = Partial(event: string, id: string, retry: nat, dataLines: seq<string>)

  const Fresh := Partial("", "", 0, [])

  function Complete(p: Partial): Event {
    Event(p.event, Join(p.dataLines, '\n'), p.id, p.retry)
  }

  function Absorb(p: Partial, name: string, value: string): Partial {
    if name == "event" then p.(event := value)
    else if name == "data" then p.(dataLines := p.dataLines + [value])
    else if name == "id" then p.(id := value)
    else if name == "retry" then p.(retry := LeadingNumber(value, 0))
    else p
  }

  // ----- One line -----

  function FieldOf(line: string): (string, string) {
    var colon := FirstIndex(line, ':');
    if colon == |line| then (line, "") else
      var value := line[colon + 1..];
      (line[..colon], if value != "" && value[0] == ' ' then value[1..] else value)
  }

  function AbsorbLine(p: Partial, line: string): Partial {
    if line != "" && line[0] == ':' then p else Absorb(p, FieldOf(line).0, FieldOf(line).1)
  }

  /** Reads up to the end of the next event: the event, if any, and the lines left. */
  function Scan(lines: seq<string>, p: Partial): (Option<Event>, seq<string>) {
    if lines == [] then (if p.dataLines != [] then Some(Complete(p)) else None, [])
    else if lines[0] == "" then
      if p.dataLines != [] then (Some(Complete(p)), lines[1..]) else Scan(lines[1..], p)
    else Scan(lines[1..], AbsorbLine(p, lines[0]))
  }

  lemma {:induction false} ScanConsumes(lines: seq<string>, p: Partial)
    ensures |Scan(lines, p).1| <= |lines|
    ensures Scan(lines, p).0.Some? && (lines != [] || p.dataLines == []) ==> |Scan(lines, p).1| < |lines|
  {
    if lines != [] && !(lines[0] == "" && p.dataLines != []) {
      ScanConsumes(lines[1..], if lines[0] == "" then p else AbsorbLine(p, lines[0]));
    }
  }

  /** All events of a stream, by calling Next until it reports the end. */
  function AllEvents(lines: seq<string>): seq<Event>
    decreases |lines|
  {
    var (event, rest) := Scan(lines, Fresh);
    if event.None? then [] else
      ScanConsumes(lines, Fresh);
      [event.value] + AllEvents(rest)
  }

  // ----- What a server writes -----

  /** A field may be written with a space after the colon, without one, or without colon. */
  datatype Style = Spaced | Tight | Bare

  datatype Item = Field(name: string, value: string, style: Style) | Comment(text: string)

  predicate Writable(item: Item) {
    match item
    case Comment(_) => true
    case Field(name, value, style) =>
      && name != "" && FirstIndex(name, ':') == |name|
      && (style.Tight? ==> !(" " <= value))
      && (style.Bare? ==> value == "")
  }

  function LineOf(item: Item): string {
    match item
    case Comment(text) => ":" + text
    case Field(name, value, Spaced) => name + ": " + value
    case Field(name, value, Tight) => name + ":" + value
    case Field(name, _, Bare) => name
  }

  /** What the items of an event mean, in order; comments and unknown fields mean nothing. */
  function Meaning(p: Partial, items: seq<Item>): Partial
    decreases |items|
  {
    if items == [] then p else
      Meaning(if items[0].Field? then Absorb(p, items[0].name, items[0].value) else p, items[1..])
  }

  /** A block: some empty lines, the items of one event, and the empty line that ends it. */
  datatype Block = Block(blanks: nat, items: seq<Item>)

  predicate HasData(items: seq<Item>) {
    exists i :: 0 <= i < |items| && items[i].Field? && items[i].name == "data"
  }

  predicate GoodBlock(b: Block) {
    HasData(b.items) && forall i :: 0 <= i < |b.items| ==> Writable(b.items[i])
  }

  function Lines(items: seq<Item>): seq<string> {
    if items == [] then [] else [LineOf(items[0])] + Lines(items[1..])
  }

  function Blanks(n: nat): seq<string> {
    if n == 0 then [] else [""] + Blanks(n - 1)
  }

  function Print(blocks: seq<Block>): seq<string> {
    if blocks == [] then [] else Blanks(blocks[0].blanks) + Lines(blocks[0].items) + [""] + Print(blocks[1..])
  }

  function Meanings(blocks: seq<Block>): seq<Event> {
    if blocks == [] then [] else [Complete(Meaning(Fresh, blocks[0].items))] + Meanings(blocks[1..])
  }

  // ----- Reading undoes writing -----

  lemma {:induction false} FirstIndexInFront(name: string, rest: string)
    requires FirstIndex(name, ':') == |name| && rest != "" && rest[0] == ':'
    ensures FirstIndex(name + rest, ':') == |name|
  {
    if name == "" {
      assert name + rest == rest;
    } else {
      assert (name + rest)[1..] == name[1..] + rest;
      FirstIndexInFront(name[1..], rest);
    }
  }

  /** A line that an item writes is never empty and is read as what the item says. */
  lemma LineIsRead(p: Partial, item: Item)
    requires Writable(item)
    ensures LineOf(item) != ""
    ensures AbsorbLine(p, LineOf(item)) == if item.Field? then Absorb(p, item.name, item.value) else p
  {
    match item
    case Comment(_) =>
    case Field(name, value, style) =>
      hide Absorb;
      var line := LineOf(item);
      var rest := line[|name|..];
      assert line == name + rest;
      if style.Bare? {
        assert FieldOf(line) == (name, value);
      } else {
        FirstIndexInFront(name, rest);
        assert line[..|name|] == name;
        assert line[|name| + 1..] == if style.Spaced? then " " + value else value;
        assert style.Spaced? ==> (" " + value)[1..] == value;
        assert FieldOf(line) == (name, value);
      }
      assert line[0] != ':';
  }

  lemma {:induction false} BlanksAreSkipped(n: nat, tail: seq<string>)
    ensures Scan(Blanks(n) + tail, Fresh) == Scan(tail, Fresh)
  {
    if n == 0 {
      assert Blanks(0) + tail == tail;
    } else {
      assert (Blanks(n) + tail)[0] == "" && (Blanks(n) + tail)[1..] == Blanks(n - 1) + tail;
      BlanksAreSkipped(n - 1, tail);
    }
  }

  lemma {:induction false} ItemsAreRead(p: Partial, items: seq<Item>, tail: seq<string>)
    requires forall i :: 0 <= i < |items| ==> Writable(items[i])
    ensures Scan(Lines(items) + tail, p) == Scan(tail, Meaning(p, items))
    decreases |items|
  {
    if items == [] {
      assert Lines(items) + tail == tail;
    } else {
      LineIsRead(p, items[0]);
      hide Writable, AbsorbLine, Absorb, LineOf;
      var lines := Lines(items) + tail;
      assert lines[0] == LineOf(items[0]) && lines[1..] == Lines(items[1..]) + tail;
      ItemsAreRead(if items[0].Field? then Absorb(p, items[0].name, items[0].value) else p, items[1..], tail);
    }
  }

  lemma {:induction false} DataIsKept(p: Partial, items: seq<Item>)
    requires p.dataLines != [] || HasData(items)
    ensures Meaning(p, items).dataLines != []
    decreases |items|
  {
    if items != [] {
      var q := if items[0].Field? then Absorb(p, items[0].name, items[0].value) else p;
      if q.dataLines == [] {
        var i :| 0 <= i < |items| && items[i].Field? && items[i].name == "data";
        assert i > 0;
        assert items[1..][i - 1] == items[i];
      }
      DataIsKept(q, items[1..]);
    }
  }

  /** Next returns exactly the first event and leaves exactly the rest. */
  lemma NextReadsABlock(b: Block, tail: seq<string>)
    requires GoodBlock(b)
    ensures Scan(Blanks(b.blanks) + Lines(b.items) + [""] + tail, Fresh)
         == (Some(Complete(Meaning(Fresh, b.items))), tail)
  {
    var ended := [""] + tail;
    assert Blanks(b.blanks) + Lines(b.items) + [""] + tail == Blanks(b.blanks) + (Lines(b.items) + ended);
    BlanksAreSkipped(b.blanks, Lines(b.items) + ended);
    ItemsAreRead(Fresh, b.items, ended);
    DataIsKept(Fresh, b.items);
    assert ended[0] == "" && ended[1..] == tail;
  }

  /** A block without data is not delivered, and its fields carry over to the next one. */
  lemma NoDataNoEvent(items: seq<Item>, tail: seq<string>)
    requires !HasData(items) && forall i :: 0 <= i < |items| ==> Writable(items[i])
    ensures Scan(Lines(items) + ([""] + tail), Fresh) == Scan(tail, Meaning(Fresh, items))
  {
    ItemsAreRead(Fresh, items, [""] + tail);
    NoDataStays(Fresh, items);
    assert ([""] + tail)[1..] == tail;
  }

  lemma {:induction false} NoDataStays(p: Partial, items: seq<Item>)
    requires p.dataLines == [] && !HasData(items)
    ensures Meaning(p, items).dataLines == []
    decreases |items|
  {
    if items != [] {
      assert forall i :: 0 <= i < |items[1..]| ==> items[1..][i] == items[i + 1];
      NoDataStays(if items[0].Field? then Absorb(p, items[0].name, items[0].value) else p, items[1..]);
    }
  }

  /** Printing any blocks and reading until the end gives back what each of them means. */
  lemma {:induction false} BlocksAreRead(blocks: seq<Block>)
    requires forall i :: 0 <= i < |blocks| ==> GoodBlock(blocks[i])
    ensures AllEvents(Print(blocks)) == Meanings(blocks)
  {
    if blocks != [] {
      NextReadsABlock(blocks[0], Print(blocks[1..]));
      BlocksAreRead(blocks[1..]);
    }
  }

  // ----- Events -----

  /** The values written for a field, in order. */
  function ValuesOf(items: seq<Item>, name: string): seq<string> {
    if items == [] then [] else
      var last := items[|items| - 1];
      ValuesOf(items[..|items| - 1], name) + if last.Field? && last.name == name then [last.value] else []
  }

  lemma ValuesSnoc(items: seq<Item>, last: Item, name: string)
    ensures ValuesOf(items + [last], name)
         == ValuesOf(items, name) + if last.Field? && last.name == name then [last.value] else []
  {
    assert (items + [last])[..|items|] == items;
  }

  function LastOr(values: seq<string>, default: string): string {
    if values == [] then default else values[|values| - 1]
  }

  /** The items say the event: the last `event`, `id` and decimal `retry` count, an absent one
      stands for nothing or zero, and the `data` values are the lines of the data. Comments and
      all other fields may stand anywhere. */
  predicate Tells(items: seq<Item>, e: Event) {
    && LastOr(ValuesOf(items, "event"), "") == e.event
    && LastOr(ValuesOf(items, "id"), "") == e.id
    && LastOr(ValuesOf(items, "retry"), "0") == Decimal(e.retry)
    && ValuesOf(items, "data") != [] && Join(ValuesOf(items, "data"), '\n') == e.data
  }

  lemma {:induction false} MeaningSnoc(p: Partial, items: seq<Item>, last: Item)
    ensures Meaning(p, items + [last])
         == if last.Field? then Absorb(Meaning(p, items), last.name, last.value) else Meaning(p, items)
    decreases |items|
  {
    hide Absorb;
    if items == [] {
      assert ([] + [last])[0] == last && ([] + [last])[1..] == [];
    } else {
      assert (items + [last])[0] == items[0] && (items + [last])[1..] == items[1..] + [last];
      MeaningSnoc(if items[0].Field? then Absorb(p, items[0].name, items[0].value) else p, items[1..], last);
    }
  }

  /** What is absorbed item by item is, field by field, what was written. */
  lemma {:induction false} MeaningByName(items: seq<Item>)
    ensures var p := Meaning(Fresh, items);
            && p.event == LastOr(ValuesOf(items, "event"), "")
            && p.id == LastOr(ValuesOf(items, "id"), "")
            && p.retry == LeadingNumber(LastOr(ValuesOf(items, "retry"), "0"), 0)
            && p.dataLines == ValuesOf(items, "data")
  {
    if items == [] {
      assert LeadingNumber("0", 0) == 0 by { DecimalIsRead(0, 0, "0"); }
    } else {
      var init, last := items[..|items| - 1], items[|items| - 1];
      assert items == init + [last];
      MeaningByName(init);
      MeaningSnoc(Fresh, init, last);
      ValuesSnoc(init, last, "event");
      ValuesSnoc(init, last, "id");
      ValuesSnoc(init, last, "retry");
      ValuesSnoc(init, last, "data");
      hide LeadingNumber, Meaning, ValuesOf;
    }
  }

  lemma TellingIsMeaning(items: seq<Item>, e: Event)
    requires Tells(items, e)
    ensures Complete(Meaning(Fresh, items)) == e && HasData(items)
  {
    MeaningByName(items);
    DecimalIsRead(e.retry, 0, Decimal(e.retry));
    DataHasItem(items);
    hide Meaning, ValuesOf, LastOr, LeadingNumber, HasData;
  }

  lemma {:induction false} DataHasItem(items: seq<Item>)
    requires ValuesOf(items, "data") != []
    ensures HasData(items)
  {
    var init, last := items[..|items| - 1], items[|items| - 1];
    if !(last.Field? && last.name == "data") {
      DataHasItem(init);
      var i :| 0 <= i < |init| && init[i].Field? && init[i].name == "data";
      assert items[i] == init[i];
    }
  }

  /** However a server writes a sequence of events, with comments, unknown and repeated fields
      and empty lines in between, calling Next until the end returns exactly those events. */
  lemma {:induction false} ReadingUndoesPrinting(events: seq<Event>, blocks: seq<Block>)
    requires |events| == |blocks|
    requires forall i :: 0 <= i < |blocks| ==> Tells(blocks[i].items, events[i])
    requires forall i, j :: 0 <= i < |blocks| && 0 <= j < |blocks[i].items| ==> Writable(blocks[i].items[j])
    ensures AllEvents(Print(blocks)) == events
  {
    hide Tells, Writable, HasData;
    forall i | 0 <= i < |blocks| ensures GoodBlock(blocks[i]) && Complete(Meaning(Fresh, blocks[i].items)) == events[i] {
      TellingIsMeaning(blocks[i].items, events[i]);
    }
    BlocksAreRead(blocks);
    hide Complete, Meaning, GoodBlock;
    MeaningsAre(blocks, events);
  }

  lemma {:induction false} MeaningsAre(blocks: seq<Block>, events: seq<Event>)
    requires |events| == |blocks|
    requires forall i :: 0 <= i < |blocks| ==> Complete(Meaning(Fresh, blocks[i].items)) == events[i]
    ensures Meanings(blocks) == events
  {
    hide Complete, Meaning;
    if blocks != [] {
      MeaningsAre(blocks[1..], events[1..]);
      assert events == [events[0]] + events[1..];
    }
  }

  // ----- From text to text -----

  function DropCr(line: string): string {
    if line != "" && line[|line| - 1] == '\r' then line[..|line| - 1] else line
  }

  /** The scanner: lines end at a newline, and lose one carriage return before it. */
  function ScanLines(text: string): seq<string>
    decreases |text|
  {
    if text == "" then [] else
      var i := FirstIndex(text, '\n');
      if i == |text| then [DropCr(text)] else [DropCr(text[..i])] + ScanLines(text[i + 1..])
  }

  function TextOf(lines: seq<string>): string {
    if lines == [] then "" else lines[0] + "\n" + TextOf(lines[1..])
  }

  function Dropped(lines: seq<string>): (r: seq<string>)
    ensures |r| == |lines|
  {
    seq(|lines|, i requires 0 <= i < |lines| => DropCr(lines[i]))
  }

  predicate OneLine(s: string) {
    '\n' !in s
  }

  lemma {:induction false} TextIsScanned(lines: seq<string>)
    requires forall l :: l in lines ==> OneLine(l)
    ensures ScanLines(TextOf(lines)) == Dropped(lines)
  {
    if lines != [] {
      assert lines == [lines[0]] + lines[1..];
      TextIsScanned(lines[1..]);
      assert OneLine(lines[0]);
      FirstAfter(lines[0], '\n', TextOf(lines[1..]));
      assert Dropped(lines) == [DropCr(lines[0])] + Dropped(lines[1..]);
    }
  }

  function DataItems(parts: seq<string>): seq<Item> {
    if parts == [] then [] else DataItems(parts[..|parts| - 1]) + [Field("data", parts[|parts| - 1], Spaced)]
  }

  function HeadOf(e: Event): seq<Item> {
    [Field("event", e.event, Spaced), Field("id", e.id, Spaced), Field("retry", Decimal(e.retry), Spaced)]
  }

  /** The plain way to write an event. */
  function ItemsOf(e: Event): seq<Item> {
    HeadOf(e) + DataItems(Split(e.data, '\n'))
  }

  lemma {:induction false} DataItemsTell(head: seq<Item>, parts: seq<string>, name: string)
    ensures ValuesOf(head + DataItems(parts), name) == ValuesOf(head, name) + if name == "data" then parts else []
  {
    if parts == [] {
      assert head + [] == head;
      assert ValuesOf(head, name) + [] == ValuesOf(head, name);
    } else {
      var init, last := parts[..|parts| - 1], Field("data", parts[|parts| - 1], Spaced);
      var items := head + DataItems(parts);
      assert items[..|items| - 1] == head + DataItems(init) && items[|items| - 1] == last;
      DataItemsTell(head, init, name);
      assert parts == init + [last.value];
    }
  }

  lemma HeadTells(e: Event, name: string)
    ensures ValuesOf(HeadOf(e), name)
         == if name == "event" then [e.event] else if name == "id" then [e.id]
            else if name == "retry" then [Decimal(e.retry)] else []
  {
    var a, b, c := Field("event", e.event, Spaced), Field("id", e.id, Spaced), Field("retry", Decimal(e.retry), Spaced);
    assert HeadOf(e) == [] + [a] + [b] + [c];
    ValuesSnoc([], a, name);
    ValuesSnoc([] + [a], b, name);
    ValuesSnoc([] + [a] + [b], c, name);
  }

  lemma ItemsTell(e: Event)
    ensures Tells(ItemsOf(e), e)
  {
    var parts := Split(e.data, '\n');
    JoinUndoesSplit(e.data, '\n');
    hide ValuesOf, Split, Decimal, HeadOf, Join;
    assert [] + parts == parts && forall v: string :: [v] + [] == [v];
    HeadTells(e, "event");
    HeadTells(e, "id");
    HeadTells(e, "retry");
    HeadTells(e, "data");
    DataItemsTell(HeadOf(e), parts, "event");
    DataItemsTell(HeadOf(e), parts, "id");
    DataItemsTell(HeadOf(e), parts, "retry");
    DataItemsTell(HeadOf(e), parts, "data");
  }

  function BlocksOf(events: seq<Event>): seq<Block> {
    if events == [] then [] else [Block(0, ItemsOf(events[0]))] + BlocksOf(events[1..])
  }

  /** The stream that a server writes for the events. */
  function PlainText(events: seq<Event>): string {
    TextOf(Print(BlocksOf(events)))
  }

  lemma {:induction false} DataItemsAre(parts: seq<string>)
    ensures |DataItems(parts)| == |parts|
    ensures forall j :: 0 <= j < |parts| ==> DataItems(parts)[j] == Field("data", parts[j], Spaced)
  {
    if parts != [] { DataItemsAre(parts[..|parts| - 1]); }
  }

  /** The fields of the plain form have one-line names that the reader knows. */
  predicate IsPlain(item: Item) {
    item.Field? && item.style.Spaced? && item.name in {"event", "id", "retry", "data"}
  }

  lemma ItemsArePlain(e: Event)
    ensures forall j :: 0 <= j < |ItemsOf(e)| ==> IsPlain(ItemsOf(e)[j]) && Writable(ItemsOf(e)[j])
  {
    DataItemsAre(Split(e.data, '\n'));
    hide Split, Decimal, DataItems;
    NamesHaveNoColon();
    hide FirstIndex;
    assert forall j :: 0 <= j < |DataItems(Split(e.data, '\n'))| ==> IsPlain(DataItems(Split(e.data, '\n'))[j]);
  }

  lemma NamesHaveNoColon()
    ensures FirstIndex("event", ':') == 5 && FirstIndex("id", ':') == 2 && FirstIndex("retry", ':') == 5
    ensures FirstIndex("data", ':') == 4
  {
    assert FirstIndex("event", ':') == 5 && FirstIndex("id", ':') == 2 && FirstIndex("retry", ':') == 5;
    assert FirstIndex("data", ':') == 4;
  }

  // ----- Which events plain text carries -----

  /** What is left of an event: its lines lose a carriage return at their end. */
  function Trimmed(e: Event): Event {
    Event(DropCr(e.event), Join(Dropped(Split(e.data, '\n')), '\n'), DropCr(e.id), e.retry)
  }

  function AllTrimmed(events: seq<Event>): seq<Event> {
    if events == [] then [] else [Trimmed(events[0])] + AllTrimmed(events[1..])
  }

  function TrimmedItem(item: Item): Item {
    if item.Field? then item.(value := DropCr(item.value)) else item
  }

  lemma LineIsTrimmed(item: Item)
    requires IsPlain(item)
    ensures DropCr(LineOf(item)) == LineOf(TrimmedItem(item))
    ensures OneLine(item.value) ==> OneLine(LineOf(item))
  {
    var line := LineOf(item);
    if item.value == "" {
      assert line[|line| - 1] == ' ';
    } else {
      assert line[|line| - 1] == item.value[|item.value| - 1];
    }
  }

  lemma {:induction false} LinesAreTrimmed(items: seq<Item>, trimmed: seq<Item>)
    requires |trimmed| == |items|
    requires forall j :: 0 <= j < |items| ==> IsPlain(items[j]) && trimmed[j] == TrimmedItem(items[j])
    ensures Dropped(Lines(items)) == Lines(trimmed)
    ensures (forall j :: 0 <= j < |items| ==> items[j].Field? && OneLine(items[j].value)) ==>
              forall l :: l in Lines(items) ==> OneLine(l)
  {
    if items != [] {
      LinesAreTrimmed(items[1..], trimmed[1..]);
      LineIsTrimmed(items[0]);
      hide LineOf, DropCr, OneLine, TrimmedItem, IsPlain;
      assert Dropped(Lines(items)) == [DropCr(LineOf(items[0]))] + Dropped(Lines(items[1..]));
    }
  }

  predicate OneLineNames(e: Event) {
    OneLine(e.event) && OneLine(e.id)
  }

  lemma DecimalStays(n: nat)
    ensures DropCr(Decimal(n)) == Decimal(n) && OneLine(Decimal(n))
  {
    assert IsDecimal(Decimal(n)[|Decimal(n)| - 1]);
  }

  lemma DroppedPartsAreFree(s: string)
    ensures forall p :: p in Split(s, '\n') ==> OneLine(p)
    ensures Split(Join(Dropped(Split(s, '\n')), '\n'), '\n') == Dropped(Split(s, '\n'))
  {
    var parts := Split(s, '\n');
    PartsAreFree(s, '\n');
    forall p | p in Dropped(parts) ensures '\n' !in p {
      var i :| 0 <= i < |parts| && DropCr(parts[i]) == p;
      assert parts[i] in parts;
    }
    SplitUndoesJoin(Dropped(parts), '\n');
  }

  lemma ItemsAreTrimmed(e: Event)
    requires OneLineNames(e)
    ensures Dropped(Lines(ItemsOf(e))) == Lines(ItemsOf(Trimmed(e)))
    ensures forall l :: l in Lines(ItemsOf(e)) ==> OneLine(l)
  {
    var parts, items, trimmed := Split(e.data, '\n'), ItemsOf(e), ItemsOf(Trimmed(e));
    DroppedPartsAreFree(e.data);
    DecimalStays(e.retry);
    DataItemsAre(parts);
    DataItemsAre(Dropped(parts));
    ItemsArePlain(e);
    hide Split, Decimal, DropCr, Join, OneLine, IsPlain, Writable;
    assert |trimmed| == |items|;
    forall j | 0 <= j < |items|
      ensures trimmed[j] == TrimmedItem(items[j]) && OneLine(items[j].value)
    {
      assert j >= 3 ==> items[j].value in parts;
    }
    LinesAreTrimmed(items, trimmed);
  }

  lemma {:induction false} PrintIsTrimmed(events: seq<Event>)
    requires forall i :: 0 <= i < |events| ==> OneLineNames(events[i])
    ensures Dropped(Print(BlocksOf(events))) == Print(BlocksOf(AllTrimmed(events)))
    ensures forall l :: l in Print(BlocksOf(events)) ==> OneLine(l)
  {
    if events != [] {
      PrintIsTrimmed(events[1..]);
      ItemsAreTrimmed(events[0]);
      hide OneLineNames, ItemsOf, Lines, Trimmed, OneLine;
      PrintCons(events);
      PrintCons(AllTrimmed(events));
      assert AllTrimmed(events)[1..] == AllTrimmed(events[1..]);
      DroppedParts(Lines(ItemsOf(events[0])), Print(BlocksOf(events[1..])));
      assert OneLine("") by { EmptyIsOneLine(); }
    }
  }

  lemma EmptyIsOneLine()
    ensures OneLine("")
  {}

  lemma PrintCons(events: seq<Event>)
    requires events != []
    ensures Print(BlocksOf(events)) == Lines(ItemsOf(events[0])) + [""] + Print(BlocksOf(events[1..]))
  {
    hide ItemsOf, Lines;
    assert BlocksOf(events)[1..] == BlocksOf(events[1..]);
    assert Blanks(0) + Lines(ItemsOf(events[0])) == Lines(ItemsOf(events[0]));
  }

  lemma DroppedParts(a: seq<string>, b: seq<string>)
    ensures Dropped(a + [""] + b) == Dropped(a) + [""] + Dropped(b)
  {}

  lemma {:induction false} PlainIsRead(events: seq<Event>)
    ensures AllEvents(Print(BlocksOf(events))) == events
  {
    if events != [] {
      var e := events[0];
      PlainIsRead(events[1..]);
      ItemsTell(e);
      ItemsArePlain(e);
      TellingIsMeaning(ItemsOf(e), e);
      var b := Block(0, ItemsOf(e));
      hide ItemsOf, Lines, Tells, Writable, Complete, Meaning, HasData, IsPlain;
      NextReadsABlock(b, Print(BlocksOf(events[1..])));
      assert BlocksOf(events)[1..] == BlocksOf(events[1..]);
    }
  }

  /** What comes back from the plain text of any events with one-line names: the same events,
      except that each of their lines loses a carriage return at its end. */
  lemma TextRoundTrip(events: seq<Event>)
    requires forall i :: 0 <= i < |events| ==> OneLineNames(events[i])
    ensures AllEvents(ScanLines(PlainText(events))) == AllTrimmed(events)
  {
    PrintIsTrimmed(events);
    TextIsScanned(Print(BlocksOf(events)));
    PlainIsRead(AllTrimmed(events));
  }

  predicate EndsInCr(s: string) {
    s != "" && s[|s| - 1] == '\r'
  }

  /** An event that plain text carries unharmed. */
  predicate Printable(e: Event) {
    && OneLineNames(e) && !EndsInCr(e.event) && !EndsInCr(e.id)
    && forall part :: part in Split(e.data, '\n') ==> !EndsInCr(part)
  }

  lemma PrintableIffUntrimmed(e: Event)
    requires OneLineNames(e)
    ensures Trimmed(e) == e <==> Printable(e)
  {
    var parts := Split(e.data, '\n');
    DroppedPartsAreFree(e.data);
    JoinUndoesSplit(e.data, '\n');
    if Dropped(parts) == parts {
      forall part | part in parts ensures !EndsInCr(part) {
        var i :| 0 <= i < |parts| && parts[i] == part;
        assert Dropped(parts)[i] == part;
      }
    } else {
      var i :| 0 <= i < |parts| && DropCr(parts[i]) != parts[i];
      assert parts[i] in parts && EndsInCr(parts[i]);
    }
  }

  lemma {:induction false} ScannedLinesAreOneLine(text: string)
    ensures forall l :: l in ScanLines(text) ==> OneLine(l)
    decreases |text|
  {
    if text != "" {
      var i := FirstIndex(text, '\n');
      assert OneLine(text[..i]) && OneLine(DropCr(text[..i]));
      if i == |text| {
        assert text[..i] == text;
      } else {
        ScannedLinesAreOneLine(text[i + 1..]);
      }
    }
  }

  lemma AbsorbKeepsOneLine(p: Partial, line: string)
    requires OneLine(p.event) && OneLine(p.id) && OneLine(line)
    ensures OneLine(AbsorbLine(p, line).event) && OneLine(AbsorbLine(p, line).id)
  {
    var value := FieldOf(line).1;
    assert forall c :: c in value ==> c in line;
    hide FieldOf, LeadingNumber;
  }

  lemma {:induction false} ScannedNamesAreOneLine(lines: seq<string>, p: Partial)
    requires OneLine(p.event) && OneLine(p.id) && forall l :: l in lines ==> OneLine(l)
    ensures var (event, rest) := Scan(lines, p);
            && (event.Some? ==> OneLineNames(event.value))
            && forall l :: l in rest ==> OneLine(l)
  {
    if lines != [] && !(lines[0] == "" && p.dataLines != []) {
      assert lines == [lines[0]] + lines[1..];
      if lines[0] != "" { AbsorbKeepsOneLine(p, lines[0]); }
      hide OneLine, AbsorbLine;
      ScannedNamesAreOneLine(lines[1..], if lines[0] == "" then p else AbsorbLine(p, lines[0]));
    }
  }

  lemma {:induction false} ReadNamesAreOneLine(lines: seq<string>)
    requires forall l :: l in lines ==> OneLine(l)
    ensures forall e :: e in AllEvents(lines) ==> OneLineNames(e)
    decreases |lines|
  {
    EmptyIsOneLine();
    ScannedNamesAreOneLine(lines, Fresh);
    var (event, rest) := Scan(lines, Fresh);
    if event.Some? {
      ScanConsumes(lines, Fresh);
      hide OneLine, OneLineNames, Scan;
      ReadNamesAreOneLine(rest);
    }
  }

  lemma {:induction false} AllTrimmedAt(events: seq<Event>)
    ensures |AllTrimmed(events)| == |events|
    ensures forall i :: 0 <= i < |events| ==> AllTrimmed(events)[i] == Trimmed(events[i])
  {
    hide Trimmed;
    if events != [] { AllTrimmedAt(events[1..]); }
  }

  /** Written as plain text and read until the end, a sequence of events comes back exactly
      if and only if every event is printable. */
  lemma TextRoundTripIff(events: seq<Event>)
    ensures AllEvents(ScanLines(PlainText(events))) == events <==>
            forall i :: 0 <= i < |events| ==> Printable(events[i])
  {
    var got := AllEvents(ScanLines(PlainText(events)));
    ScannedLinesAreOneLine(PlainText(events));
    ReadNamesAreOneLine(ScanLines(PlainText(events)));
    hide ScanLines, PlainText, AllEvents, OneLineNames, Trimmed;
    if got == events || forall i :: 0 <= i < |events| ==> Printable(events[i]) {
      forall i | 0 <= i < |events| ensures OneLineNames(events[i]) {
        assert got == events ==> events[i] in got;
      }
      TextRoundTrip(events);
      AllTrimmedAt(events);
      forall i | 0 <= i < |events| ensures Trimmed(events[i]) == events[i] <==> Printable(events[i]) {
        PrintableIffUntrimmed(events[i]);
      }
    }
  }

  /** An event that the stream's end cuts off before its empty line is still delivered. */
  lemma LastEventNeedsNoBlank(b: Block, e: Event)
    requires Tells(b.items, e) && forall i :: 0 <= i < |b.items| ==> Writable(b.items[i])
    ensures AllEvents(Blanks(b.blanks) + Lines(b.items)) == [e]
  {
    TellingIsMeaning(b.items, e);
    BlanksAreSkipped(b.blanks, Lines(b.items));
    ItemsAreRead(Fresh, b.items, []);
    DataIsKept(Fresh, b.items);
    assert Lines(b.items) + [] == Lines(b.items);
    var lines := Blanks(b.blanks) + Lines(b.items);
    assert Scan(lines, Fresh) == (Some(e), []);
    assert AllEvents([]) == [];
  }

  // ----- The reader -----

  class SseReader {
    var lines: seq<string>
    const failing: bool  // whether the scanner stops with an error after the last line

    constructor (lines: seq<string>, failing: bool)
      ensures this.lines == lines && this.failing == failing
    {
      this.lines, this.failing := lines, failing;
    }

    /** `failed` tells a scanner error from the end of the stream. */
    method Next() returns (event: Option<Event>, failed: bool)
      modifies this
      ensures lines == Scan(old(lines), Fresh).1
      ensures var (next, rest) := Scan(old(lines), Fresh);
              failed == (failing && !EndsWithBlank(old(lines), Fresh)) && event == (if failed then None else next)
    {
      var p := Fresh;
      while |lines| > 0
        invariant Scan(lines, p) == Scan(old(lines), Fresh)
        invariant EndsWithBlank(lines, p) == EndsWithBlank(old(lines), Fresh)
        decreases |lines|
      {
        var line := lines[0];
        lines := lines[1..];
        if line == "" {
          if |p.dataLines| > 0 {
            return Some(Complete(p)), false;
          }
          continue;
        }
        if line[0] == ':' { continue; }
        var (name, value) := FieldOf(line);
        match name {
          case "event" => p := p.(event := value);
          case "data" => p := p.(dataLines := p.dataLines + [value]);
          case "id" => p := p.(id := value);
          case "retry" =>
            var retry := ParseRetry(value);
            p := p.(retry := retry);
          case _ =>
        }
      }
      if failing { return None, true; }
      if |p.dataLines| > 0 { return Some(Complete(p)), false; }
      return None, false;
    }
  }

  /** Whether a scan stops at an empty line, before the lines run out. */
  predicate EndsWithBlank(lines: seq<string>, p: Partial) {
    if lines == [] then false
    else if lines[0] == "" then p.dataLines != [] || EndsWithBlank(lines[1..], p)
    else EndsWithBlank(lines[1..], AbsorbLine(p, lines[0]))
  }

  method ParseRetry(value: string) returns (retry: nat)
    ensures retry == LeadingNumber(value, 0)
  {
    retry := 0;
    assert value[0..] == value;
    for i := 0 to |value|
      invariant LeadingNumber(value[i..], retry) == LeadingNumber(value, 0)
    {
      assert value[i..][1..] == value[i + 1..];
      if !IsDecimal(value[i]) { return; }
      retry := retry * 10 + (value[i] as int - '0' as int);
    }
  }
}
