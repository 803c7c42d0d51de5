/** Event streams as a server may write them: blocks of fields and comments, with or without a space
    after the colon, with any line ends; and what the decoder makes of them. */
module SseMessages {
  import opened Digits
  import opened Options
  import opened Sequences
  import opened ServerSentEvents
  import opened SseDecoding

  datatype Line = Comment(text: string) | Field(name: string, value: string)

  /** The lines of one event, without the blank line that completes it. */
  type Block = seq<Line>

  predicate HasNoEnd(s: string) {
    '\n' !in s && '\r' !in s
  }

  predicate IsLine(line: Line) {
    match line
    case Comment(text) => HasNoEnd(text)
    case Field(name, value) => HasNoEnd(name) && HasNoEnd(value) && name != "" && ':' !in name
  }

  predicate IsBlock(block: Block) {
    forall i :: 0 <= i < |block| ==> IsLine(block[i])
  }

  /** The ways to write a line: one space after the colon is not part of the value, and without a
      value the colon may be missing. */
  predicate Spells(text: string, line: Line) {
    match line
    case Comment(comment) => text == ":" + comment
    case Field(name, value) =>
      || text == name + (": " + value)
      || (text == name + (":" + value) && (value == "" || value[0] != ' '))
      || (text == name && value == "")
  }

  predicate SpellsBlock(texts: seq<string>, block: Block) {
    |texts| == |block| && forall i :: 0 <= i < |block| ==> Spells(texts[i], block[i])
  }

  // ----- What a block means

  /** The values of all `data` fields. */
  function DataOf(block: Block): seq<string> {
    if block == [] then []
    else
      var init, last := block[..|block| - 1], block[|block| - 1];
      if last.Field? && last.name == "data" then DataOf(init) + [last.value] else DataOf(init)
  }

  /** The value of the last `event` field, or what was set before. */
  function TypeOf(block: Block, before: string): string {
    if block == [] then before
    else
      var init, last := block[..|block| - 1], block[|block| - 1];
      if last.Field? && last.name == "event" then last.value else TypeOf(init, before)
  }

  /** The value of the last `id` field without NUL, or the one before. */
  function IdOf(block: Block, before: string): string {
    if block == [] then before
    else
      var init, last := block[..|block| - 1], block[|block| - 1];
      if last.Field? && last.name == "id" && '\0' !in last.value then last.value else IdOf(init, before)
  }

  /** The number in the last `retry` field that holds digits only, or the one before; nothing when it
      does not fit 64 bits. */
  function RetryOf(block: Block, before: Option<nat>): Option<nat> {
    if block == [] then before
    else
      var init, last := block[..|block| - 1], block[|block| - 1];
      if last.Field? && last.name == "retry" && last.value != "" && IsDigits(last.value) then
        if DigitsValue(last.value) < 0x1_0000_0000_0000_0000 then Some(DigitsValue(last.value)) else None
      else RetryOf(init, before)
  }

  function JoinLines(data: seq<string>): string
    requires data != []
  {
    if |data| == 1 then data[0] else JoinLines(data[..|data| - 1]) + ("\n" + data[|data| - 1])
  }

  /** The events of blocks, after an identifier and a retry time: one for each block with data. */
  function EventsRead(id: string, retry: Option<nat>, blocks: seq<Block>): seq<Event>
    decreases |blocks|
  {
    if blocks == [] then []
    else
      var block := blocks[0];
      var kind, nextId, nextRetry := TypeOf(block, ""), IdOf(block, id), RetryOf(block, retry);
      (if DataOf(block) == [] then []
       else [Event(if kind == "" then None else Some(kind), JoinLines(DataOf(block)),
                   if nextId == "" then None else Some(nextId), nextRetry)])
      + EventsRead(nextId, nextRetry, blocks[1..])
  }

  // ----- Lines, one after the other

  function FoldFields(f: Fields, lines: seq<string>): Fields
    decreases |lines|
  {
    if lines == [] then f else FoldFields(ProcessLine(f, lines[0]).0, lines[1..])
  }

  function FoldEvents(f: Fields, lines: seq<string>): seq<Event>
    decreases |lines|
  {
    if lines == [] then [] else EventOf(ProcessLine(f, lines[0]).1) + FoldEvents(ProcessLine(f, lines[0]).0, lines[1..])
  }

  lemma {:induction false} FoldCat(f: Fields, a: seq<string>, b: seq<string>)
    ensures FoldFields(f, a + b) == FoldFields(FoldFields(f, a), b)
    ensures FoldEvents(f, a + b) == FoldEvents(f, a) + FoldEvents(FoldFields(f, a), b)
    decreases |a|
  {
    hide ProcessLine;
    if a == [] {
      assert a + b == b && [] + FoldEvents(f, b) == FoldEvents(f, b);
    } else {
      assert (a + b)[1..] == a[1..] + b;
      var (next, event) := ProcessLine(f, a[0]);
      FoldCat(next, a[1..], b);
      Cat2(EventOf(event), FoldEvents(next, a[1..]), FoldEvents(FoldFields(next, a[1..]), b));
    }
  }

  lemma FoldOne(f: Fields, line: string)
    ensures FoldFields(f, [line]) == ProcessLine(f, line).0 && FoldEvents(f, [line]) == EventOf(ProcessLine(f, line).1)
  {
    hide ProcessLine;
    assert [line][1..] == [] && EventOf(ProcessLine(f, line).1) + [] == EventOf(ProcessLine(f, line).1);
  }

  /** No line, with the data before it, exceeds the limit. */
  predicate LinesFit(limit: nat, f: Fields, lines: seq<string>)
    decreases |lines|
  {
    lines == [] ||
      ((lines[0] == "" || |lines[0]| + |f.data| <= limit) && LinesFit(limit, ProcessLine(f, lines[0]).0, lines[1..]))
  }

  lemma {:induction false} LinesFitCat(limit: nat, f: Fields, a: seq<string>, b: seq<string>)
    ensures LinesFit(limit, f, a + b) <==> LinesFit(limit, f, a) && LinesFit(limit, FoldFields(f, a), b)
    decreases |a|
  {
    hide ProcessLine;
    if a == [] {
      assert a + b == b;
    } else {
      assert (a + b)[1..] == a[1..] + b;
      LinesFitCat(limit, ProcessLine(f, a[0]).0, a[1..], b);
    }
  }

  lemma LinesFitOne(limit: nat, f: Fields, line: string)
    ensures LinesFit(limit, f, [line]) <==> line == "" || |line| + |f.data| <= limit
  {
    hide ProcessLine;
    assert [line][1..] == [];
  }

  // ----- Line ends

  /** A line feed, a carriage return, or both. */
  predicate IsLineEnd(end: string) {
    end == "\n" || end == "\r" || end == "\r\n"
  }

  /** Lines with their ends. */
  function Text(lines: seq<string>, ends: seq<string>): string
    requires |ends| == |lines|
  {
    if lines == [] then "" else (lines[0] + ends[0]) + Text(lines[1..], ends[1..])
  }

  /** No line feed follows an end that is a carriage return, which it would belong to. */
  predicate KeepApart(lines: seq<string>, ends: seq<string>) {
    && |ends| == |lines| && (forall i :: 0 <= i < |ends| ==> IsLineEnd(ends[i]))
    && forall i :: 0 < i < |ends| && ends[i - 1] == "\r" ==> lines[i] != "" || ends[i] != "\n"
  }

  function At(f: Fields, cr: bool): Decoder {
    Decoder("", f, true, cr)
  }

  lemma LineIsOne(line: string)
    ensures HasNoEnd(line) <==> IsOneLine(line)
  {
    if IsOneLine(line) {
      assert forall i :: 0 <= i < |line| ==> line[i] != '\n' && line[i] != '\r';
    }
  }

  /** A carriage return before matters to a line feed only. */
  lemma PendingIgnored(limit: nat, f: Fields, text: string)
    requires text != "" && text[0] != '\n'
    ensures Run(limit, At(f, true), text) == Run(limit, At(f, false), text)
  {
    assert ReadByte(limit, At(f, true), text[0]) == ReadByte(limit, At(f, false), text[0]);
    hide ReadByte;
  }

  lemma RunEnd(limit: nat, f: Fields, line: string, end: string)
    requires IsLineEnd(end)
    ensures Run(limit, At(f, false).(buffer := line), end) ==
      Done(At(ProcessLine(f, line).0, end == "\r"), EventOf(ProcessLine(f, line).1))
  {
    var d := At(f, false).(buffer := line);
    var (next, event) := ProcessLine(f, line);
    OneByte(limit, d, end[0]);
    assert EventOf(event) + [] == EventOf(event);
    if |end| == 1 {
      assert end == [end[0]];
    } else {
      assert "\r\n" == "\r" + "\n";
      RunCat(limit, d, "\r", "\n");
      OneByte(limit, At(next, true), '\n');
    }
    hide ProcessLine, Run;
  }

  /** A line that fits the limit is processed whatever ends it; another fails. */
  lemma RunLine(limit: nat, f: Fields, cr: bool, line: string, end: string)
    requires HasNoEnd(line) && IsLineEnd(end) && (cr ==> line != "" || end != "\n")
    ensures var r := Run(limit, At(f, cr), line + end);
      if line == "" || |line| + |f.data| <= limit
      then r == Done(At(ProcessLine(f, line).0, end == "\r"), EventOf(ProcessLine(f, line).1))
      else r.FailedAt?
  {
    if cr {
      assert (line + end)[0] != '\n' by {
        assert (line + end)[0] == if line == "" then end[0] else line[0];
        assert line != "" ==> line[0] in line;
      }
      PendingIgnored(limit, f, line + end);
    }
    LineIsOne(line);
    RunLineText(limit, At(f, false), line);
    assert "" + line == line;
    RunCat(limit, At(f, false), line, end);
    RunEnd(limit, f, line, end);
    hide ProcessLine, Run;
    var event := ProcessLine(f, line).1;
    assert [] + EventOf(event) == EventOf(event);
  }

  /** Lines that fit the limit are read as the line-by-line reading says, whatever ends them; others
      fail. */
  lemma {:induction false} RunLines(limit: nat, f: Fields, cr: bool, lines: seq<string>, ends: seq<string>)
    requires (forall i :: 0 <= i < |lines| ==> HasNoEnd(lines[i])) && KeepApart(lines, ends)
    requires cr && lines != [] ==> lines[0] != "" || ends[0] != "\n"
    ensures var r := Run(limit, At(f, cr), Text(lines, ends));
      if LinesFit(limit, f, lines)
      then r.Done? && r.decoder == At(FoldFields(f, lines), r.decoder.pendingCr) && r.events == FoldEvents(f, lines)
      else r.FailedAt?
    decreases |lines|
  {
    if lines != [] {
      var next := ProcessLine(f, lines[0]).0;
      RunLine(limit, f, cr, lines[0], ends[0]);
      RunLines(limit, next, ends[0] == "\r", lines[1..], ends[1..]);
      hide ProcessLine, Run;
      RunCat(limit, At(f, cr), lines[0] + ends[0], Text(lines[1..], ends[1..]));
    }
  }

  // ----- What one line does

  lemma {:induction false} ColonAt(name: string, rest: string)
    requires ':' !in name && (rest == "" || rest[0] == ':')
    ensures ColonIndex(name + rest) == |name|
  {
    var line := name + rest;
    if name != "" {
      assert line[1..] == name[1..] + rest;
      ColonAt(name[1..], rest);
    } else {
      assert line == rest;
    }
  }

  lemma SpelledParts(text: string, name: string, value: string)
    requires Spells(text, Field(name, value)) && ':' !in name && name != ""
    ensures text != "" && text[0] != ':' && FieldName(text) == name && FieldValue(text) == value
  {
    assert name[0] in name;
    if text == name + (": " + value) {
      ColonAt(name, ": " + value);
      assert text[..|name|] == name && text[|name| + 2..] == value;
    } else if text == name + (":" + value) {
      ColonAt(name, ":" + value);
      assert text[..|name|] == name && text[|name| + 1..] == value;
    } else {
      ColonAt(name, "");
      assert name + "" == name && text[..|name|] == name;
    }
  }

  /** The fields after a line. */
  function AfterLine(f: Fields, line: Line): Fields {
    Fields(if line.Field? && line.name == "data" then f.data + line.value + "\n" else f.data,
           TypeOf([line], f.event), IdOf([line], f.lastEventId), RetryOf([line], f.retry))
  }

  lemma Means(block: Block, line: Line, kind: string, id: string, retry: Option<nat>)
    ensures TypeOf(block + [line], kind) ==
      (if line.Field? && line.name == "event" then line.value else TypeOf(block, kind))
    ensures IdOf(block + [line], id) ==
      if line.Field? && line.name == "id" && '\0' !in line.value then line.value else IdOf(block, id)
    ensures RetryOf(block + [line], retry) ==
      if line.Field? && line.name == "retry" && line.value != "" && IsDigits(line.value) then
        if DigitsValue(line.value) < 0x1_0000_0000_0000_0000 then Some(DigitsValue(line.value)) else None
      else RetryOf(block, retry)
  {
    assert (block + [line])[..|block|] == block;
    hide IsDigits, DigitsValue;
  }

  lemma LineDoes(f: Fields, text: string, line: Line)
    requires IsLine(line) && Spells(text, line)
    ensures text != "" && ProcessLine(f, text) == (AfterLine(f, line), None)
  {
    assert [] + [line] == [line];
    Means([], line, f.event, f.lastEventId, f.retry);
    match line
    case Comment(_) =>
      hide TypeOf, IdOf, RetryOf;
    case Field(name, value) =>
      SpelledParts(text, name, value);
      hide FieldName, FieldValue, Spells, DigitsValue, IsDigits;
      assert TypeOf([], f.event) == f.event && IdOf([], f.lastEventId) == f.lastEventId &&
        RetryOf([], f.retry) == f.retry;
      hide TypeOf, IdOf, RetryOf;
      assert "event" != "data" && "event" != "id" && "event" != "retry" && "data" != "id" && "data" != "retry" &&
        "id" != "retry";
  }

  // ----- What a block does

  /** The text that data lines leave in the buffer. */
  function DataText(data: seq<string>): string {
    if data == [] then "" else DataText(data[..|data| - 1]) + data[|data| - 1] + "\n"
  }

  /** The size of the data so far. */
  function DataSize(block: Block): nat {
    |DataText(DataOf(block))|
  }

  function AfterBlock(f: Fields, block: Block): Fields {
    Fields(f.data + DataText(DataOf(block)), TypeOf(block, f.event), IdOf(block, f.lastEventId),
           RetryOf(block, f.retry))
  }

  /** Every line of the block, with the data before it, is within the limit. */
  predicate BlockFits(limit: nat, texts: seq<string>, block: Block) {
    |texts| == |block| && forall i :: 0 <= i < |block| ==> |texts[i]| + DataSize(block[..i]) <= limit
  }

  lemma DataGrows(f: string, block: Block, line: Line)
    ensures f + DataText(DataOf(block + [line])) ==
      if line.Field? && line.name == "data" then (f + DataText(DataOf(block))) + line.value + "\n"
      else f + DataText(DataOf(block))
  {
    assert (block + [line])[..|block|] == block;
    var data := DataOf(block);
    if line.Field? && line.name == "data" {
      assert (data + [line.value])[..|data|] == data;
      Cat2(f, DataText(data), line.value);
      Cat2(f, DataText(data) + line.value, "\n");
    }
  }

  lemma AfterOneMore(f: Fields, block: Block, line: Line)
    ensures AfterBlock(f, block + [line]) == AfterLine(AfterBlock(f, block), line)
  {
    var g := AfterBlock(f, block);
    DataGrows(f.data, block, line);
    Means(block, line, f.event, f.lastEventId, f.retry);
    Means([], line, g.event, g.lastEventId, g.retry);
    assert [] + [line] == [line];
    assert TypeOf([], g.event) == g.event && IdOf([], g.lastEventId) == g.lastEventId &&
      RetryOf([], g.retry) == g.retry;
    hide DataText, DataOf, TypeOf, IdOf, RetryOf;
  }

  lemma NothingAfter(f: Fields)
    ensures AfterBlock(f, []) == f
  {
    assert f.data + "" == f.data;
  }

  /** The lines of a block set its fields and make no event. */
  lemma {:induction false} BlockDoes(limit: nat, f: Fields, texts: seq<string>, block: Block)
    requires IsBlock(block) && SpellsBlock(texts, block)
    ensures FoldFields(f, texts) == AfterBlock(f, block) && FoldEvents(f, texts) == []
    ensures f.data == "" ==> (LinesFit(limit, f, texts) <==> BlockFits(limit, texts, block))
    decreases |block|
  {
    if block == [] {
      NothingAfter(f);
    } else {
      var n := |block| - 1;
      var init, line, before, text := block[..n], block[n], texts[..n], texts[n];
      hide *;
      SplitBlock(texts, block);
      BlockDoes(limit, f, before, init);
      LineDoes(AfterBlock(f, init), text, line);
      FoldCat(f, before, [text]);
      FoldOne(AfterBlock(f, init), text);
      AfterOneMore(f, init, line);
      NoEvents([]);
      LinesFitCat(limit, f, before, [text]);
      LinesFitOne(limit, AfterBlock(f, init), text);
      BlockFitsMore(limit, f, texts, block);
    }
  }

  lemma NoEvents(events: seq<Event>)
    ensures EventOf(None) == [] && [] + events == events
  {
  }

  lemma SplitBlock(texts: seq<string>, block: Block)
    requires block != [] && IsBlock(block) && SpellsBlock(texts, block)
    ensures var n := |block| - 1;
      && |texts| == n + 1 && texts == texts[..n] + [texts[n]] && block == block[..n] + [block[n]]
      && IsBlock(block[..n]) && SpellsBlock(texts[..n], block[..n]) && IsLine(block[n]) && Spells(texts[n], block[n])
  {
    hide IsLine, Spells;
  }

  lemma BlockFitsMore(limit: nat, f: Fields, texts: seq<string>, block: Block)
    requires block != [] && |texts| == |block|
    ensures var n := |block| - 1;
      f.data == "" ==>
        (BlockFits(limit, texts, block) <==>
           BlockFits(limit, texts[..n], block[..n]) && |texts[n]| + |AfterBlock(f, block[..n]).data| <= limit)
  {
    var n := |block| - 1;
    hide DataSize, DataOf, DataText;
    if f.data == "" {
      assert AfterBlock(f, block[..n]).data == DataText(DataOf(block[..n]));
      assert DataSize(block[..n]) == |DataText(DataOf(block[..n]))| by { DataSizeIs(block[..n]); }
      assert forall i :: 0 <= i < n ==> block[..n][..i] == block[..i] && texts[..n][i] == texts[i];
    }
  }

  lemma DataSizeIs(block: Block)
    ensures DataSize(block) == |DataText(DataOf(block))|
  {
  }

  lemma {:induction false} DataTextJoins(data: seq<string>)
    requires data != []
    ensures DataText(data) == JoinLines(data) + "\n"
  {
    var init, last := data[..|data| - 1], data[|data| - 1];
    if init == [] {
      assert DataText(init) == "" && "" + last == last;
    } else {
      DataTextJoins(init);
      Cat2(JoinLines(init), "\n", last);
    }
  }

  /** The event of a block. */
  function EventMade(id: string, retry: Option<nat>, block: Block): seq<Event> {
    var kind, nextId, nextRetry := TypeOf(block, ""), IdOf(block, id), RetryOf(block, retry);
    if DataOf(block) == [] then []
    else [Event(if kind == "" then None else Some(kind), JoinLines(DataOf(block)),
                if nextId == "" then None else Some(nextId), nextRetry)]
  }

  function Kept(id: string, retry: Option<nat>): Fields {
    Fields("", "", id, retry)
  }

  /** The blank line makes the event of a block with data, and forgets the type of another. */
  lemma BlankLineDoes(id: string, retry: Option<nat>, block: Block)
    ensures var f := AfterBlock(Kept(id, retry), block);
      ProcessLine(f, "").0 == Kept(IdOf(block, id), RetryOf(block, retry)) &&
      EventOf(ProcessLine(f, "").1) == EventMade(id, retry, block)
  {
    var f := AfterBlock(Kept(id, retry), block);
    var data := DataOf(block);
    assert f.data == DataText(data);
    if data != [] {
      DataTextJoins(data);
      hide DataText, DataOf, TypeOf, IdOf, RetryOf, JoinLines;
      assert f.data[..|f.data| - 1] == JoinLines(data);
    }
  }

  /** The lines of a block and the blank one make exactly its event, and keep its identifier and its
      retry time. */
  lemma BlockMakes(limit: nat, id: string, retry: Option<nat>, texts: seq<string>, block: Block)
    requires IsBlock(block) && SpellsBlock(texts, block)
    ensures var f := Kept(id, retry);
      && FoldFields(f, texts + [""]) == Kept(IdOf(block, id), RetryOf(block, retry))
      && FoldEvents(f, texts + [""]) == EventMade(id, retry, block)
      && (LinesFit(limit, f, texts + [""]) <==> BlockFits(limit, texts, block))
  {
    var f := Kept(id, retry);
    assert f.data == "";
    hide *;
    BlockDoes(limit, f, texts, block);
    FoldCat(f, texts, [""]);
    FoldOne(AfterBlock(f, block), "");
    BlankLineDoes(id, retry, block);
    LinesFitCat(limit, f, texts, [""]);
    LinesFitOne(limit, AfterBlock(f, block), "");
    NoEvents(EventMade(id, retry, block));
  }


  // ----- Whole streams

  /** The lines of blocks as they are spelled, each block with its blank line. */
  function StreamLines(spelled: seq<seq<string>>): seq<string> {
    if spelled == [] then [] else (spelled[0] + [""]) + StreamLines(spelled[1..])
  }

  predicate SpellsAll(spelled: seq<seq<string>>, blocks: seq<Block>) {
    |spelled| == |blocks| && forall i :: 0 <= i < |blocks| ==> IsBlock(blocks[i]) && SpellsBlock(spelled[i], blocks[i])
  }

  lemma EventsReadUnfold(id: string, retry: Option<nat>, blocks: seq<Block>)
    requires blocks != []
    ensures EventsRead(id, retry, blocks) ==
      EventMade(id, retry, blocks[0]) + EventsRead(IdOf(blocks[0], id), RetryOf(blocks[0], retry), blocks[1..])
  {
    hide DataOf, TypeOf, IdOf, RetryOf, JoinLines;
  }

  lemma {:induction false} StreamMakes(limit: nat, id: string, retry: Option<nat>, spelled: seq<seq<string>>,
                                       blocks: seq<Block>)
    requires SpellsAll(spelled, blocks)
    ensures FoldEvents(Kept(id, retry), StreamLines(spelled)) == EventsRead(id, retry, blocks)
    ensures LinesFit(limit, Kept(id, retry), StreamLines(spelled)) <==>
      forall i :: 0 <= i < |blocks| ==> BlockFits(limit, spelled[i], blocks[i])
    decreases |blocks|
  {
    if blocks != [] {
      var block, first, rest := blocks[0], spelled[0], StreamLines(spelled[1..]);
      hide IsBlock, SpellsBlock, FoldFields, FoldEvents, LinesFit, BlockFits, EventMade, EventsRead, IdOf, RetryOf;
      BlockMakes(limit, id, retry, first, block);
      FoldCat(Kept(id, retry), first + [""], rest);
      LinesFitCat(limit, Kept(id, retry), first + [""], rest);
      StreamMakes(limit, IdOf(block, id), RetryOf(block, retry), spelled[1..], blocks[1..]);
      EventsReadUnfold(id, retry, blocks);
      assert forall i :: 0 < i < |blocks| ==> blocks[i] == blocks[1..][i - 1] && spelled[i] == spelled[1..][i - 1];
      assert forall i :: 0 <= i < |blocks| - 1 ==> blocks[1..][i] == blocks[i + 1] && spelled[1..][i] == spelled[i + 1];
    }
  }

  /** A line as written: without line ends, and not starting like a byte order mark. */
  predicate IsPlain(text: string) {
    HasNoEnd(text) && (text != "" ==> text[0] != '\U{EF}')
  }

  predicate NamesArePlain(block: Block) {
    forall i :: 0 <= i < |block| && block[i].Field? ==> block[i].name != "" && block[i].name[0] != '\U{EF}'
  }

  lemma SpelledIsPlain(text: string, line: Line)
    requires IsLine(line) && Spells(text, line)
    ensures HasNoEnd(text) && text != ""
    ensures line.Field? && line.name[0] != '\U{EF}' ==> IsPlain(text)
    ensures line.Comment? ==> IsPlain(text)
  {
  }

  lemma {:induction false} StreamIsLines(spelled: seq<seq<string>>, blocks: seq<Block>)
    requires SpellsAll(spelled, blocks)
    ensures forall i :: 0 <= i < |StreamLines(spelled)| ==> HasNoEnd(StreamLines(spelled)[i])
    decreases |blocks|
  {
    if blocks != [] {
      var first, rest := spelled[0] + [""], StreamLines(spelled[1..]);
      StreamIsLines(spelled[1..], blocks[1..]);
      forall i | 0 <= i < |first|
        ensures HasNoEnd(first[i])
      {
        if i < |spelled[0]| {
          SpelledIsPlain(spelled[0][i], blocks[0][i]);
        }
      }
      hide HasNoEnd, IsBlock, SpellsBlock;
      assert StreamLines(spelled) == first + rest;
    }
  }

  lemma FirstLineIsPlain(spelled: seq<seq<string>>, blocks: seq<Block>)
    requires SpellsAll(spelled, blocks) && blocks != [] && NamesArePlain(blocks[0])
    ensures StreamLines(spelled) != [] && IsPlain(StreamLines(spelled)[0])
  {
    var first := spelled[0] + [""];
    assert StreamLines(spelled)[0] == first[0];
    if spelled[0] != [] {
      SpelledIsPlain(spelled[0][0], blocks[0][0]);
    }
  }

  /** Past the byte order mark, or where there is none, the decoder is ready for lines. */
  lemma Begins(limit: nat, bom: string, text: string)
    requires bom == "\U{EF}\U{BB}\U{BF}" || (bom == "" && (text != "" ==> text[0] != '\U{EF}'))
    ensures var r, s := Run(limit, START, bom + text), Run(limit, At(NO_FIELDS, false), text);
      if s.Done? then r.Done? && r.events == s.events else r.FailedAt?
  {
    if bom == "" {
      assert bom + text == text;
      if text != "" {
        assert ReadByte(limit, START, text[0]) == ReadByte(limit, At(NO_FIELDS, false), text[0]);
        hide ReadByte;
      }
    } else {
      RunCat(limit, START, bom, text);
      BomRead(limit);
      var s := Run(limit, At(NO_FIELDS, false), text);
      assert s.Done? ==> [] + s.events == s.events;
      hide Run;
    }
  }

  lemma BomRead(limit: nat)
    ensures Run(limit, START, "\U{EF}\U{BB}\U{BF}") == Done(At(NO_FIELDS, false), [])
  {
    var bom := "\U{EF}\U{BB}\U{BF}";
    assert bom[1..] == "\U{BB}\U{BF}" && bom[1..][1..] == "\U{BF}" && bom[1..][1..][1..] == "";
    var d1, d2 := START.(buffer := "\U{EF}"), START.(buffer := "\U{EF}\U{BB}");
    assert ReadByte(limit, START, bom[0]) == Moved(d1, []);
    assert ReadByte(limit, d1, bom[1]) == Moved(d2, []);
    assert ReadByte(limit, d2, bom[2]) == Moved(At(NO_FIELDS, false), []);
    hide ReadByte;
    assert Run(limit, d2, "\U{BF}") == Done(At(NO_FIELDS, false), []);
  }

  /** A fresh decoder reads any blocks, however they are spelled and whatever ends their lines, with or
      without a byte order mark, as exactly their events, provided every line fits the limit; otherwise
      decoding fails. */
  lemma MessagesDecode(limit: nat, bom: string, spelled: seq<seq<string>>, ends: seq<string>, blocks: seq<Block>)
    requires SpellsAll(spelled, blocks) && KeepApart(StreamLines(spelled), ends)
    requires bom == "\U{EF}\U{BB}\U{BF}" || (bom == "" && (blocks != [] ==> NamesArePlain(blocks[0])))
    ensures var r := Run(limit, START, bom + Text(StreamLines(spelled), ends));
      if forall i :: 0 <= i < |blocks| ==> BlockFits(limit, spelled[i], blocks[i])
      then r.Done? && r.events == EventsRead("", None, blocks)
      else r.FailedAt?
  {
    var lines := StreamLines(spelled);
    var text := Text(lines, ends);
    if blocks != [] && NamesArePlain(blocks[0]) {
      FirstLineIsPlain(spelled, blocks);
      assert text[0] == (lines[0] + ends[0])[0];
    }
    StreamIsLines(spelled, blocks);
    hide Text, StreamLines, BlockFits, SpellsAll, HasNoEnd, Run, LinesFit, FoldEvents, EventsRead, KeepApart;
    Begins(limit, bom, text);
    RunLines(limit, NO_FIELDS, false, lines, ends);
    assert NO_FIELDS == Kept("", None);
    StreamMakes(limit, "", None, spelled, blocks);
  }
}
