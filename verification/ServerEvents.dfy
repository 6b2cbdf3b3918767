/**
  The two parsers of server-sent events in the MCP client: one that yields every event of a
  stream, and one that looks for the answer to a request in a complete response
  (`_iter_sse_events`, `_parse_sse_text_response`).

  One gets lines, the other divides its text with `splitlines`. `Events` is the reference:
  blank lines separate blocks, and a block with data is an event. Compare section 9.2.6 of the
  WHATWG HTML Standard; unlike the standard, this code also dispatches a last block that no
  blank line ends.
 */
module ServerEvents {
  import opened Text
  import opened TextLines
  import opened Wrappers

  datatype Event = Event(name: string, data: string)

  // ----- the reference

  /** `line.rstrip("\r")` */
  function TrimReturns(line: string): string {
    if line != "" && line[|line| - 1] == '\r' then TrimReturns(line[..|line| - 1]) else line
  }

  /** A non-blank line: a comment, or a field with its value */
  datatype Field = Comment | Field(name: string, value: string)

  function ParseField(line: string): Field {
    var i := Find(line, ":");
    if i == 0 then Comment
    else
      var value := if i == -1 then "" else line[i + 1..];
      Field(if i == -1 then line else line[..i], if " " <= value then value[1..] else value)
  }

  /** Blocks that a blank line has ended, and the lines after them */
  datatype Split = Split(ended: seq<seq<Field>>, open: seq<Field>)

  function SplitBlocks(lines: seq<string>): Split {
    if lines == [] then Split([], [])
    else
      var before := SplitBlocks(lines[..|lines| - 1]);
      var line := TrimReturns(lines[|lines| - 1]);
      if line == "" then Split(before.ended + [before.open], [])
      else Split(before.ended, before.open + [ParseField(line)])
  }

  /** The values of the block's `data` fields */
  function DataOf(block: seq<Field>): seq<string> {
    if block == [] then []
    else
      var last := block[|block| - 1];
      DataOf(block[..|block| - 1]) + if last.Field? && last.name == "data" then [last.value] else []
  }

  /** The value of the block's last `event` field; an empty one, or none, means "message" */
  function NameOf(block: seq<Field>): string {
    if block == [] then "message"
    else
      var last := block[|block| - 1];
      if last.Field? && last.name == "event" then (if last.value == "" then "message" else last.value)
      else NameOf(block[..|block| - 1])
  }

  /** `"\n".join(parts)` */
  function JoinLines(parts: seq<string>): string {
    if parts == [] then "" else if |parts| == 1 then parts[0] else parts[0] + "\n" + JoinLines(parts[1..])
  }

  function EventOf(block: seq<Field>): seq<Event> {
    if DataOf(block) == [] then [] else [Event(NameOf(block), JoinLines(DataOf(block)))]
  }

  function EventsOf(blocks: seq<seq<Field>>): seq<Event> {
    if blocks == [] then [] else EventsOf(blocks[..|blocks| - 1]) + EventOf(blocks[|blocks| - 1])
  }

  /** The events of a sequence of lines */
  function Events(lines: seq<string>): seq<Event> {
    EventsOf(SplitBlocks(lines).ended) + EventOf(SplitBlocks(lines).open)
  }

  // ----- the streaming parser

  /** What the loop of either parser has done after some lines */
  ghost predicate HasRead(lines: seq<string>, eventName: string, dataLines: seq<string>, events: seq<Event>) {
    && eventName == NameOf(SplitBlocks(lines).open)
    && dataLines == DataOf(SplitBlocks(lines).open)
    && events == EventsOf(SplitBlocks(lines).ended)
  }

  lemma ReadsNothing()
    ensures HasRead([], "message", [], [])
  {
  }

  lemma SplitSnoc(lines: seq<string>, i: nat)
    requires i < |lines|
    ensures
      var before, line := SplitBlocks(lines[..i]), TrimReturns(lines[i]);
      SplitBlocks(lines[..i + 1]) ==
        if line == "" then Split(before.ended + [before.open], [])
        else Split(before.ended, before.open + [ParseField(line)])
  {
    assert lines[..i + 1][..i] == lines[..i] && lines[..i + 1][i] == lines[i];
  }

  lemma FieldSnoc(block: seq<Field>, last: Field)
    ensures DataOf(block + [last]) == DataOf(block) + if last.Field? && last.name == "data" then [last.value] else []
    ensures NameOf(block + [last]) ==
            if last.Field? && last.name == "event" then (if last.value == "" then "message" else last.value)
            else NameOf(block)
  {
    assert (block + [last])[..|block|] == block;
  }

  lemma BlockSnoc(blocks: seq<seq<Field>>, last: seq<Field>)
    ensures EventsOf(blocks + [last]) == EventsOf(blocks) + EventOf(last)
  {
    assert (blocks + [last])[..|blocks|] == blocks;
  }

  lemma ReadsBlank(lines: seq<string>, i: nat, eventName: string, dataLines: seq<string>, events: seq<Event>)
    requires i < |lines| && HasRead(lines[..i], eventName, dataLines, events) && TrimReturns(lines[i]) == ""
    ensures HasRead(lines[..i + 1], "message", [],
      events + if dataLines == [] then [] else [Event(eventName, JoinLines(dataLines))])
  {
    hide SplitBlocks, EventsOf, JoinLines;
    SplitSnoc(lines, i);
    BlockSnoc(SplitBlocks(lines[..i]).ended, SplitBlocks(lines[..i]).open);
  }

  lemma ReadsField(lines: seq<string>, i: nat, eventName: string, dataLines: seq<string>, events: seq<Event>)
    requires i < |lines| && HasRead(lines[..i], eventName, dataLines, events) && TrimReturns(lines[i]) != ""
    ensures
      var field := ParseField(TrimReturns(lines[i]));
      HasRead(lines[..i + 1],
        if field.Field? && field.name == "event" then (if field.value == "" then "message" else field.value)
        else eventName,
        if field.Field? && field.name == "data" then dataLines + [field.value] else dataLines,
        events)
  {
    hide SplitBlocks, EventsOf, DataOf, NameOf, ParseField, TrimReturns;
    SplitSnoc(lines, i);
    FieldSnoc(SplitBlocks(lines[..i]).open, ParseField(TrimReturns(lines[i])));
    assert dataLines + [] == dataLines;
  }

  /** Yields the events of the lines, in order. */
  method IterSseEvents(lines: seq<string>) returns (events: seq<Event>)
    ensures events == Events(lines)
  {
    hide HasRead, ParseField, TrimReturns;
    var eventName := "message";
    var dataLines: seq<string> := [];
    events := [];
    ReadsNothing();
    assert lines[..0] == [];
    for i := 0 to |lines|
      invariant HasRead(lines[..i], eventName, dataLines, events)
    {
      var line := TrimReturns(lines[i]);
      if line == "" {
        ReadsBlank(lines, i, eventName, dataLines, events);
        assert events + [] == events;
        if dataLines != [] {
          events := events + [Event(eventName, JoinLines(dataLines))];
        }
        eventName := "message";
        dataLines := [];
        continue;
      }
      ReadsField(lines, i, eventName, dataLines, events);
      var field := ParseField(line);
      if field.Field? {
        if field.name == "event" {
          eventName := if field.value == "" then "message" else field.value;
        } else if field.name == "data" {
          dataLines := dataLines + [field.value];
        }
      }
    }
    assert lines[..|lines|] == lines;
    HasReadAll(lines, eventName, dataLines, events);
    assert events + [] == events;
    if dataLines != [] {
      events := events + [Event(eventName, JoinLines(dataLines))];
    }
  }

  lemma HasReadAll(lines: seq<string>, eventName: string, dataLines: seq<string>, events: seq<Event>)
    requires HasRead(lines, eventName, dataLines, events)
    ensures Events(lines) == events + if dataLines == [] then [] else [Event(eventName, JoinLines(dataLines))]
  {
  }

  /** Events are only ever added: what was read from the first lines stays in front. */
  lemma {:induction false} EventsStay(lines: seq<string>, k: nat, m: nat)
    requires k <= m <= |lines|
    ensures EventsOf(SplitBlocks(lines[..k]).ended) <= EventsOf(SplitBlocks(lines[..m]).ended)
    decreases m
  {
    hide SplitBlocks, EventsOf, EventOf, ParseField, TrimReturns;
    if k < m {
      EventsStay(lines, k, m - 1);
      SplitSnoc(lines, m - 1);
      BlockSnoc(SplitBlocks(lines[..m - 1]).ended, SplitBlocks(lines[..m - 1]).open);
    }
  }

  lemma EventsExtend(lines: seq<string>, k: nat, eventName: string, dataLines: seq<string>, events: seq<Event>)
    requires k <= |lines| && HasRead(lines[..k], eventName, dataLines, events)
    ensures events <= Events(lines)
  {
    EventsStay(lines, k, |lines|);
    assert lines[..|lines|] == lines;
  }

  // ----- the batch parser

  /** What `json.loads` makes of an event's data; only an object can be an answer */
  datatype Payload<T> = Invalid | NotAnObject | Object(id: Option<string>, error: Option<string>, result: T)

  /** The outcome for a request: the result of its answer, the answer's error, or no answer */
  datatype Answer<T> = Result(result: T) | RpcError(error: string) | NotFound

  function LoadPayload<T>(loads: string -> Payload<T>, event: Event): Payload<T> {
    if event.name == "message" || event.name == "messages" then loads(event.data) else NotAnObject
  }

  predicate Answers<T>(loads: string -> Payload<T>, event: Event, requestId: string) {
    var payload := LoadPayload(loads, event);
    payload.Object? && payload.id == Some(requestId)
  }

  /** `_extract_jsonrpc_result`, for a payload whose id matches */
  function Extract<T>(payload: Payload<T>): Answer<T>
    requires payload.Object?
  {
    if payload.error.Some? then RpcError(payload.error.value) else Result(payload.result)
  }

  /** How many events precede the first that answers the request */
  function EventsBefore<T>(loads: string -> Payload<T>, events: seq<Event>, requestId: string): (n: nat)
    ensures n <= |events| && (n < |events| ==> Answers(loads, events[n], requestId))
    ensures forall i :: 0 <= i < n ==> !Answers(loads, events[i], requestId)
  {
    if events == [] || Answers(loads, events[0], requestId) then 0 else 1 + EventsBefore(loads, events[1..], requestId)
  }

  /** The answer in a sequence of events: that of the first event with the request's id */
  function FirstAnswer<T>(loads: string -> Payload<T>, events: seq<Event>, requestId: string): Answer<T> {
    var n := EventsBefore(loads, events, requestId);
    if n == |events| then NotFound else Extract(LoadPayload(loads, events[n]))
  }

  /**
    Searches a complete response; NotFound stands for the RuntimeError at its end. The answer
    is that of the first event, among those the streaming parser would yield, with the id.
   */
  method ParseSseTextResponse<T>(text: string, requestId: string, loads: string -> Payload<T>)
    returns (answer: Answer<T>)
    ensures answer == FirstAnswer(loads, Events(Lines(text)), requestId)
    ensures answer.NotFound? <==> forall e :: e in Events(Lines(text)) ==> !Answers(loads, e, requestId)
  {
    var lines := Lines(text);
    hide Lines, HasRead, ParseField, TrimReturns, Events, Answers, Extract, LoadPayload;
    var eventName := "message";
    var dataLines: seq<string> := [];
    ghost var events: seq<Event> := [];
    ReadsNothing();
    assert lines[..0] == [];
    for i := 0 to |lines|
      invariant HasRead(lines[..i], eventName, dataLines, events)
      invariant forall e :: e in events ==> !Answers(loads, e, requestId)
    {
      var line := TrimReturns(lines[i]);
      if line == "" {
        ReadsBlank(lines, i, eventName, dataLines, events);
        assert events + [] == events;
        if dataLines != [] {
          var event := Event(eventName, JoinLines(dataLines));
          if Answers(loads, event, requestId) {
            EventsExtend(lines, i + 1, "message", [], events + [event]);
            AnswerIsFirst(loads, events, event, Events(lines), requestId);
            return ExtractFrom(loads, event, requestId);
          }
          events := events + [event];
        }
        eventName := "message";
        dataLines := [];
        continue;
      }
      ReadsField(lines, i, eventName, dataLines, events);
      var field := ParseField(line);
      if field.Field? {
        if field.name == "event" {
          eventName := if field.value == "" then "message" else field.value;
        } else if field.name == "data" {
          dataLines := dataLines + [field.value];
        }
      }
    }
    assert lines[..|lines|] == lines;
    HasReadAll(lines, eventName, dataLines, events);
    assert events + [] == events;
    if dataLines != [] {
      var event := Event(eventName, JoinLines(dataLines));
      if Answers(loads, event, requestId) {
        AnswerIsFirst(loads, events, event, Events(lines), requestId);
        return ExtractFrom(loads, event, requestId);
      }
    }
    return NotFound;
  }

  function ExtractFrom<T>(loads: string -> Payload<T>, event: Event, requestId: string): Answer<T>
    requires Answers(loads, event, requestId)
  {
    Extract(LoadPayload(loads, event))
  }

  lemma AnswerIsFirst<T>(
    loads: string -> Payload<T>, before: seq<Event>, event: Event, all: seq<Event>, requestId: string)
    requires before + [event] <= all && Answers(loads, event, requestId)
    requires forall e :: e in before ==> !Answers(loads, e, requestId)
    ensures FirstAnswer(loads, all, requestId) == ExtractFrom(loads, event, requestId)
    ensures event in all && !FirstAnswer(loads, all, requestId).NotFound?
  {
    var n := EventsBefore(loads, all, requestId);
    assert all[|before|] == event;
    forall i | 0 <= i < |before| ensures !Answers(loads, all[i], requestId) {
      assert all[i] == before[i];
    }
    assert n == |before|;
  }

  // ----- what blocks are, and what a block says

  /** A blank line separates: what is read before it and after it does not depend on the other part. */
  lemma BlankLineSeparates(before: seq<string>, blank: string, after: seq<string>)
    requires TrimReturns(blank) == ""
    ensures Events(before + [blank] + after) == Events(before) + Events(after)
  {
    hide EventOf, EventsOf, SplitBlocks;
    var a, b := SplitBlocks(before), SplitBlocks(after);
    SplitAtBlank(before, blank, after);
    EventsOfConcat(a.ended + [a.open], b.ended);
    BlockSnoc(a.ended, a.open);
  }

  lemma {:induction false} SplitAtBlank(before: seq<string>, blank: string, after: seq<string>)
    requires TrimReturns(blank) == ""
    ensures
      var a, b := SplitBlocks(before), SplitBlocks(after);
      SplitBlocks(before + [blank] + after) == Split(a.ended + [a.open] + b.ended, b.open)
    decreases |after|
  {
    hide ParseField, TrimReturns;
    if after == [] {
      assert before + [blank] + [] == before + [blank];
      SplitAppend(before, blank);
    } else {
      var rest, last := after[..|after| - 1], after[|after| - 1];
      SplitAtBlank(before, blank, rest);
      assert before + [blank] + after == before + [blank] + rest + [last];
      assert after == rest + [last];
      hide SplitBlocks;
      SplitAppend(before + [blank] + rest, last);
      SplitAppend(rest, last);
    }
  }

  lemma {:induction false} EventsOfConcat(a: seq<seq<Field>>, b: seq<seq<Field>>)
    ensures EventsOf(a + b) == EventsOf(a) + EventsOf(b)
    decreases |b|
  {
    hide EventOf;
    if b == [] {
      assert a + b == a;
    } else {
      var rest, last := b[..|b| - 1], b[|b| - 1];
      EventsOfConcat(a, rest);
      assert a + b == a + rest + [last] && b == rest + [last];
      hide EventsOf;
      BlockSnoc(a + rest, last);
      BlockSnoc(rest, last);
    }
  }

  function ParsedAll(lines: seq<string>): (block: seq<Field>)
    ensures |block| == |lines| && forall i :: 0 <= i < |lines| ==> block[i] == ParseField(TrimReturns(lines[i]))
  {
    if lines == [] then [] else ParsedAll(lines[..|lines| - 1]) + [ParseField(TrimReturns(lines[|lines| - 1]))]
  }

  /** Lines without a blank one are one block, whether or not a blank line follows. */
  lemma {:induction false} OneBlock(lines: seq<string>)
    requires forall i :: 0 <= i < |lines| ==> TrimReturns(lines[i]) != ""
    ensures SplitBlocks(lines) == Split([], ParsedAll(lines)) && Events(lines) == EventOf(ParsedAll(lines))
    decreases |lines|
  {
    hide ParseField, TrimReturns, EventOf;
    if lines != [] {
      var n := |lines| - 1;
      assert forall i :: 0 <= i < n ==> lines[..n][i] == lines[i];
      OneBlock(lines[..n]);
    }
  }

  predicate IsDataField(field: Field) {
    field.Field? && field.name == "data"
  }

  predicate IsEventField(field: Field) {
    field.Field? && field.name == "event"
  }

  /**
    A block is an event exactly if it has a data field; its data are the values of these fields
    as lines, and its name that of its last event field, unless it has none or that is empty.
   */
  lemma BlocksSay(block: seq<Field>, last: int)
    requires -1 <= last < |block| && (last != -1 ==> IsEventField(block[last]))
    requires forall i :: last < i < |block| ==> !IsEventField(block[i])
    ensures EventOf(block) == [] <==> forall i :: 0 <= i < |block| ==> !IsDataField(block[i])
    ensures EventOf(block) != [] ==>
      EventOf(block) == [Event(
        if last == -1 || block[last].value == "" then "message" else block[last].value, JoinLines(DataOf(block)))]
  {
    NameOfLast(block, last);
    DataOfSome(block);
    hide DataOf, NameOf, JoinLines;
  }

  lemma {:induction false} NameOfLast(block: seq<Field>, last: int)
    requires -1 <= last < |block| && (last != -1 ==> IsEventField(block[last]))
    requires forall i :: last < i < |block| ==> !IsEventField(block[i])
    ensures NameOf(block) == if last == -1 || block[last].value == "" then "message" else block[last].value
    decreases |block|
  {
    if block != [] && last < |block| - 1 {
      assert forall i :: 0 <= i < |block| - 1 ==> block[..|block| - 1][i] == block[i];
      NameOfLast(block[..|block| - 1], last);
    }
  }

  lemma {:induction false} DataOfSome(block: seq<Field>)
    ensures DataOf(block) == [] <==> forall i :: 0 <= i < |block| ==> !IsDataField(block[i])
    decreases |block|
  {
    if block != [] {
      assert forall i :: 0 <= i < |block| - 1 ==> block[..|block| - 1][i] == block[i];
      DataOfSome(block[..|block| - 1]);
    }
  }

  // ----- what a line and an answer say

  /** A name alone, or a name, a colon and a value, with or without one space between them */
  predicate HasForm(line: string, name: string, value: string) {
    || (line == name && value == "")
    || line == name + ": " + value
    || (line == name + ":" + value && !(" " <= value))
  }

  /**
    A line is a comment exactly if it starts with a colon. Otherwise the first colon ends its
    name, one space after that is dropped, and a line without a colon is a name without a value.
   */
  lemma LinesParseExactly(line: string, name: string, value: string)
    requires line != ""
    ensures ParseField(line).Comment? <==> line[0] == ':'
    ensures ParseField(line) == Field(name, value) <==>
      name != "" && ':' !in name && HasForm(line, name, value)
  {
    FieldHasForm(line);
    if name != "" && ':' !in name && HasForm(line, name, value) {
      FormIsField(line, name, value);
    }
    hide ParseField;
  }

  lemma FieldHasForm(line: string)
    requires line != ""
    ensures ParseField(line).Comment? <==> line[0] == ':'
    ensures
      var field := ParseField(line);
      field.Field? ==> field.name != "" && ':' !in field.name && HasForm(line, field.name, field.value)
  {
    ColonExactly(line);
    var i := Find(line, ":");
    hide Find;
    if i > 0 {
      CutAtColon(line, i);
    }
  }

  lemma CutAtColon(line: string, i: nat)
    requires i < |line| && line[i] == ':'
    ensures line == line[..i] + ":" + line[i + 1..]
    ensures " " <= line[i + 1..] ==> line == line[..i] + ": " + line[i + 1..][1..]
  {
    var name, rest := line[..i], line[i + 1..];
    assert line == name + (":" + rest) == name + ":" + rest;
    if " " <= rest {
      assert rest == " " + rest[1..];
      assert ":" + (" " + rest[1..]) == ": " + rest[1..];
      assert name + (": " + rest[1..]) == name + ": " + rest[1..];
    }
  }

  lemma FormIsField(line: string, name: string, value: string)
    requires name != "" && ':' !in name && HasForm(line, name, value)
    ensures ParseField(line) == Field(name, value)
  {
    if line == name + ": " + value {
      assert line == name + (": " + value);
      assert (": " + value)[1..] == " " + value && (" " + value)[1..] == value;
      ColonAfter(name, ": " + value);
      assert line[..|name|] == name && line[|name| + 1..] == " " + value;
    } else if line == name + ":" + value {
      assert line == name + (":" + value);
      ColonAfter(name, ":" + value);
      assert line[..|name|] == name && line[|name| + 1..] == value;
    } else {
      ColonExactly(line);
    }
    hide Find;
  }

  lemma ColonExactly(line: string)
    ensures
      var i := Find(line, ":");
      && (i == -1 <==> ':' !in line)
      && (i != -1 ==> 0 <= i < |line| && line[i] == ':' && forall j :: 0 <= j < i ==> line[j] != ':')
  {
    var i := Find(line, ":");
    forall j | 0 <= j < |line| && (i == -1 || j < i) ensures line[j] != ':' {
      assert !(":" <= line[j..]);
    }
    if i != -1 {
      assert line[i..][0] == ':';
    }
  }

  /** The event is a message whose data is an object with the request's id. */
  predicate Carries<T>(loads: string -> Payload<T>, event: Event, requestId: string) {
    && event.name in ["message", "messages"]
    && loads(event.data).Object? && loads(event.data).id == Some(requestId)
  }

  /** Event `i` carries the request's id, and none before it does. */
  predicate IsFirstCarrier<T>(loads: string -> Payload<T>, events: seq<Event>, requestId: string, i: nat) {
    && i < |events| && Carries(loads, events[i], requestId)
    && forall j :: 0 <= j < i ==> !Carries(loads, events[j], requestId)
  }

  /**
    There is no answer exactly if no message carries the request's id. Otherwise the first that
    does decides: it is an error exactly if that object has one, and else its result.
   */
  lemma FirstAnswerExactly<T>(loads: string -> Payload<T>, events: seq<Event>, requestId: string)
    ensures
      var answer := FirstAnswer(loads, events, requestId);
      && (answer.NotFound? <==> forall i :: 0 <= i < |events| ==> !Carries(loads, events[i], requestId))
      && (forall i: nat :: IsFirstCarrier(loads, events, requestId, i) ==>
            var payload := loads(events[i].data);
            && (answer.RpcError? <==> payload.error.Some?)
            && (answer.RpcError? ==> answer.error == payload.error.value)
            && (answer.Result? ==> answer.result == payload.result))
  {
    forall i | 0 <= i < |events|
      ensures Answers(loads, events[i], requestId) <==> Carries(loads, events[i], requestId)
    {
      CarriersAnswer(loads, events[i], requestId);
    }
    hide Answers, Carries;
    var n := EventsBefore(loads, events, requestId);
    forall i: nat | IsFirstCarrier(loads, events, requestId, i) ensures i == n {
      assert n < |events| ==> Carries(loads, events[n], requestId);
    }
    if n < |events| {
      CarriersAnswer(loads, events[n], requestId);
    }
  }

  lemma CarriersAnswer<T>(loads: string -> Payload<T>, event: Event, requestId: string)
    ensures Answers(loads, event, requestId) <==> Carries(loads, event, requestId)
    ensures Carries(loads, event, requestId) ==> LoadPayload(loads, event) == loads(event.data)
  {
    assert "message" == ["message", "messages"][0] && "messages" == ["message", "messages"][1];
  }

  // ----- printing events, then parsing them

  /** `data.split("\n")` */
  function SplitData(data: string): (parts: seq<string>)
    ensures parts != []
  {
    if data == "" then [""]
    else
      var rest := SplitData(data[1..]);
      if data[0] == '\n' then [""] + rest else [[data[0]] + rest[0]] + rest[1..]
  }

  function DataLines(parts: seq<string>): seq<string> {
    if parts == [] then [] else DataLines(parts[..|parts| - 1]) + ["data: " + parts[|parts| - 1]]
  }

  /** An event as lines: its name, one line for each line of its data, and a blank line */
  function PrintEvent(event: Event): seq<string> {
    ["event: " + event.name] + DataLines(SplitData(event.data)) + [""]
  }

  function PrintEvents(events: seq<Event>): seq<string> {
    if events == [] then [] else PrintEvents(events[..|events| - 1]) + PrintEvent(events[|events| - 1])
  }

  function PrintText(events: seq<Event>): string {
    Unlines(PrintEvents(events))
  }

  /** The breaks at which `splitlines` would cut a printed name or a printed line of data */
  predicate Printable(event: Event) {
    && event.name != "" && NoBreak(event.name)
    && forall i :: 0 <= i < |event.data| ==> IsLineBreak(event.data[i]) ==> event.data[i] == '\n'
  }

  lemma Untrimmed(line: string)
    requires NoBreak(line)
    ensures TrimReturns(line) == line
  {
  }

  lemma FieldReads(name: string, text: string)
    requires name != "" && (forall j :: 0 <= j < |name| ==> name[j] != ':') && NoBreak(name) && NoBreak(text)
    ensures TrimReturns(name + ": " + text) == name + ": " + text
    ensures ParseField(name + ": " + text) == Field(name, text) && NoBreak(name + ": " + text)
  {
    hide TrimReturns, ParseField;
    Untrimmed(name + ": " + text);
    ParseAfter(name, text);
    assert name + ": " + text == name + (": " + text);
  }

  lemma ParseAfter(name: string, value: string)
    requires name != "" && forall j :: 0 <= j < |name| ==> name[j] != ':'
    ensures ParseField(name + (": " + value)) == Field(name, value)
  {
    hide Find;
    var after := ": " + value;
    var line := name + after;
    ColonAfter(name, after);
    assert line[..|name|] == name;
    assert line[|name| + 1..] == after[1..] == " " + value;
    assert (" " + value)[1..] == value;
  }

  lemma ColonAfter(name: string, rest: string)
    requires (forall j :: 0 <= j < |name| ==> name[j] != ':') && ":" <= rest
    ensures Find(name + rest, ":") == |name|
  {
    var line := name + rest;
    assert line[|name|..] == rest;
    forall j | 0 <= j < |name| ensures !(":" <= line[j..]) {
      assert line[j..][0] == name[j];
    }
  }

  lemma SplitAppend(lines: seq<string>, line: string)
    ensures
      var before, l := SplitBlocks(lines), TrimReturns(line);
      SplitBlocks(lines + [line]) ==
        if l == "" then Split(before.ended + [before.open], []) else Split(before.ended, before.open + [ParseField(l)])
  {
    assert (lines + [line])[..|lines|] == lines;
  }

  function DataFields(parts: seq<string>): seq<Field> {
    if parts == [] then [] else DataFields(parts[..|parts| - 1]) + [Field("data", parts[|parts| - 1])]
  }

  /** None of these texts has a line break in it. */
  predicate AllUnbroken(parts: seq<string>) {
    forall i :: 0 <= i < |parts| ==> NoBreak(parts[i])
  }

  lemma {:induction false} SplitDataLines(lines: seq<string>, parts: seq<string>)
    requires AllUnbroken(parts)
    ensures SplitBlocks(lines + DataLines(parts)) ==
            Split(SplitBlocks(lines).ended, SplitBlocks(lines).open + DataFields(parts))
    ensures AllUnbroken(DataLines(parts))
    decreases |parts|
  {
    hide SplitBlocks, ParseField, TrimReturns, NoBreak;
    if parts == [] {
      assert lines + [] == lines && SplitBlocks(lines).open + [] == SplitBlocks(lines).open;
    } else {
      var rest, last := parts[..|parts| - 1], parts[|parts| - 1];
      SplitDataLines(lines, rest);
      assert lines + DataLines(parts) == lines + DataLines(rest) + ["data: " + last];
      SplitAppend(lines + DataLines(rest), "data: " + last);
      FieldNames();
      FieldReads("data", last);
      assert SplitBlocks(lines).open + DataFields(rest) + [Field("data", last)]
          == SplitBlocks(lines).open + DataFields(parts);
    }
  }

  lemma FieldNames()
    ensures "data" + ": " == "data: " && NoBreak("data") && "event" + ": " == "event: " && NoBreak("event")
  {
  }

  lemma {:induction false} DataFieldsRead(first: Field, parts: seq<string>)
    requires first.Field? && first.name == "event"
    ensures DataOf([first] + DataFields(parts)) == parts
    ensures NameOf([first] + DataFields(parts)) == if first.value == "" then "message" else first.value
    decreases |parts|
  {
    if parts == [] {
      assert [first] + [] == [first] && [first][..0] == [];
    } else {
      var rest, last := parts[..|parts| - 1], parts[|parts| - 1];
      DataFieldsRead(first, rest);
      assert [first] + DataFields(parts) == [first] + DataFields(rest) + [Field("data", last)];
      FieldSnoc([first] + DataFields(rest), Field("data", last));
      assert rest + [last] == parts;
    }
  }

  lemma PrintedEventReads(lines: seq<string>, event: Event)
    requires SplitBlocks(lines).open == [] && Printable(event)
    ensures
      var block := [Field("event", event.name)] + DataFields(SplitData(event.data));
      && SplitBlocks(lines + PrintEvent(event)) == Split(SplitBlocks(lines).ended + [block], [])
      && EventOf(block) == [event]
    ensures AllUnbroken(PrintEvent(event))
  {
    hide *;
    var parts := SplitData(event.data);
    PrintableParts(event);
    var first := Field("event", event.name);
    var l1 := lines + ["event: " + event.name];
    SplitAppend(lines, "event: " + event.name);
    FieldNames();
    FieldReads("event", event.name);
    assert SplitBlocks(l1).open == [first];
    SplitDataLines(l1, parts);
    SplitAppend(l1 + DataLines(parts), "");
    assert lines + PrintEvent(event) == l1 + DataLines(parts) + [""] by {
      PrintedLines(event);
    }
    PrintedAreUnbroken(event);
    DataFieldsRead(first, parts);
    SplitThenJoin(event.data);
    EventOfBlock([first] + DataFields(parts), event);
  }

  lemma PrintableParts(event: Event)
    requires Printable(event)
    ensures event.name != "" && NoBreak(event.name) && AllUnbroken(SplitData(event.data)) && SplitData(event.data) != []
    ensures TrimReturns("") == "" && NoBreak("")
  {
    SplitDataIsUnbroken(event.data);
  }

  lemma PrintedLines(event: Event)
    ensures PrintEvent(event) == ["event: " + event.name] + DataLines(SplitData(event.data)) + [""]
  {
  }

  lemma PrintedAreUnbroken(event: Event)
    requires NoBreak("event: " + event.name) && AllUnbroken(DataLines(SplitData(event.data)))
    ensures AllUnbroken(PrintEvent(event))
  {
  }

  lemma EventOfBlock(block: seq<Field>, event: Event)
    requires DataOf(block) != [] && JoinLines(DataOf(block)) == event.data && NameOf(block) == event.name
    ensures EventOf(block) == [event]
  {
  }

  lemma {:induction false} SplitDataIsUnbroken(data: string)
    requires forall i :: 0 <= i < |data| ==> IsLineBreak(data[i]) ==> data[i] == '\n'
    ensures AllUnbroken(SplitData(data))
  {
    hide IsLineBreak;
    if data != "" {
      SplitDataIsUnbroken(data[1..]);
    }
  }

  lemma {:induction false} SplitThenJoin(data: string)
    ensures JoinLines(SplitData(data)) == data
  {
    if data != "" {
      var rest := SplitData(data[1..]);
      SplitThenJoin(data[1..]);
      var parts := SplitData(data);
      if data[0] == '\n' {
        assert parts[1..] == rest;
        assert "" + "\n" + JoinLines(rest) == data;
      } else {
        assert parts[1..] == rest[1..] && |parts| == |rest|;
        if |rest| == 1 {
          assert JoinLines(parts) == [data[0]] + rest[0];
        } else {
          assert JoinLines(parts) == [data[0]] + rest[0] + "\n" + JoinLines(rest[1..]);
          assert JoinLines(parts) == [data[0]] + JoinLines(rest);
        }
      }
    }
  }

  /** Printed events without such breaks are read back from their lines. */
  lemma {:induction false} PrintedEventsRead(events: seq<Event>)
    requires forall i :: 0 <= i < |events| ==> Printable(events[i])
    ensures SplitBlocks(PrintEvents(events)).open == []
    ensures EventsOf(SplitBlocks(PrintEvents(events)).ended) == events
    ensures Events(PrintEvents(events)) == events
    ensures AllUnbroken(PrintEvents(events))
    decreases |events|
  {
    BlocksOfNothing();
    hide PrintEvent, Printable, NoBreak, SplitBlocks, EventsOf, EventOf, DataFields;
    if events != [] {
      var rest, last := events[..|events| - 1], events[|events| - 1];
      PrintedEventsRead(rest);
      PrintedEventReads(PrintEvents(rest), last);
      BlockSnoc(SplitBlocks(PrintEvents(rest)).ended, [Field("event", last.name)] + DataFields(SplitData(last.data)));
      assert rest + [last] == events;
    }
    assert EventOf([]) == [] && events + [] == events;
  }

  lemma BlocksOfNothing()
    ensures SplitBlocks([]) == Split([], []) && EventsOf([]) == [] && EventOf([]) == []
  {
  }

  // ----- what any lines can be read as

  /** A field whose name and value have no line break in them */
  predicate IsUnbroken(field: Field) {
    field.Field? ==> NoBreak(field.name) && NoBreak(field.value)
  }

  lemma ParsedIsUnbroken(line: string)
    requires NoBreak(line)
    ensures IsUnbroken(ParseField(TrimReturns(line))) && TrimReturns(line) == line
  {
    Untrimmed(line);
    hide Find;
  }

  lemma {:induction false} BlocksAreUnbroken(lines: seq<string>)
    requires AllUnbroken(lines)
    ensures forall f :: f in SplitBlocks(lines).open ==> IsUnbroken(f)
    ensures forall b, f :: b in SplitBlocks(lines).ended && f in b ==> IsUnbroken(f)
    decreases |lines|
  {
    hide ParseField, TrimReturns, NoBreak, IsUnbroken;
    if lines != [] {
      BlocksAreUnbroken(lines[..|lines| - 1]);
      ParsedIsUnbroken(lines[|lines| - 1]);
    }
  }

  lemma {:induction false} EventIsPrintable(block: seq<Field>)
    requires forall f :: f in block ==> IsUnbroken(f)
    ensures AllUnbroken(DataOf(block)) && NameOf(block) != "" && NoBreak(NameOf(block))
    ensures forall e :: e in EventOf(block) ==> Printable(e)
    decreases |block|
  {
    assert NoBreak("message");
    if block != [] {
      var rest := block[..|block| - 1];
      assert block[|block| - 1] in block;
      EventIsPrintable(rest);
    }
    JoinedBreaks(DataOf(block));
  }

  lemma {:induction false} JoinedBreaks(parts: seq<string>)
    requires AllUnbroken(parts)
    ensures forall i :: 0 <= i < |JoinLines(parts)| ==> IsLineBreak(JoinLines(parts)[i]) ==> JoinLines(parts)[i] == '\n'
  {
    hide IsLineBreak;
    if |parts| > 1 {
      JoinedBreaks(parts[1..]);
    }
  }

  lemma {:induction false} EventsArePrintable(blocks: seq<seq<Field>>)
    requires forall b, f :: b in blocks && f in b ==> IsUnbroken(f)
    ensures forall e :: e in EventsOf(blocks) ==> Printable(e)
    decreases |blocks|
  {
    hide IsUnbroken, Printable, EventOf;
    if blocks != [] {
      var rest, last := blocks[..|blocks| - 1], blocks[|blocks| - 1];
      assert last in blocks;
      EventsArePrintable(rest);
      EventIsPrintable(last);
    }
  }

  /** Every event that either parser reads from real lines could be printed. */
  lemma ReadIsPrintable(lines: seq<string>)
    requires AllUnbroken(lines)
    ensures forall e :: e in Events(lines) ==> Printable(e)
  {
    hide Printable, EventOf, EventsOf, SplitBlocks, IsUnbroken;
    BlocksAreUnbroken(lines);
    EventsArePrintable(SplitBlocks(lines).ended);
    EventIsPrintable(SplitBlocks(lines).open);
  }

  /**
    Events printed as one text of `event:` and `data:` lines are read back from it exactly when
    each has a name, no name has a line break in it, and no data has one other than `\n`.
   */
  lemma RoundTripCondition(events: seq<Event>)
    ensures Events(Lines(PrintText(events))) == events <==> forall i :: 0 <= i < |events| ==> Printable(events[i])
  {
    hide Events, Lines, Printable, PrintEvents;
    if forall i :: 0 <= i < |events| ==> Printable(events[i]) {
      PrintedEventsRead(events);
      LinesOfUnlines(PrintEvents(events));
    } else {
      LinesHaveNoBreak(PrintText(events));
      ReadIsPrintable(Lines(PrintText(events)));
    }
  }
}
