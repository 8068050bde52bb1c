/** The client's event-stream reader: a line parser that carries a buffer from one network read to the next. */
module Sse {
  import opened Common

  // ---------- JavaScript strings ----------

  /** The characters that String.prototype.trim removes. */
  predicate IsSpace(c: char) {
    || 9 <= c as int <= 13 || c == ' ' || c as int == 0xA0 || c as int == 0x1680
    || 0x2000 <= c as int <= 0x200A || c as int == 0x2028 || c as int == 0x2029
    || c as int == 0x202F || c as int == 0x205F || c as int == 0x3000 || c as int == 0xFEFF
  }

  function TrimStart(s: string): string {
    if |s| > 0 && IsSpace(s[0]) then TrimStart(s[1..]) else s
  }

  function TrimEnd(s: string): string {
    if |s| > 0 && IsSpace(s[|s| - 1]) then TrimEnd(s[..|s| - 1]) else s
  }

  function Trim(s: string): string {
    TrimEnd(TrimStart(s))
  }

  predicate StartsWith(s: string, prefix: string) {
    |prefix| <= |s| && s[..|prefix|] == prefix
  }

  /** The complete lines of a text, and what follows its last newline. */
  function Lines(text: string): seq<string> {
    Split(text, '\n')[..|Split(text, '\n')| - 1]
  }

  function Rest(text: string): string {
    Split(text, '\n')[|Split(text, '\n')| - 1]
  }

  // ---------- the parser ----------

  /** One call of the event handler. */
  datatype Event<Json> = Event(name: string, data: Json)

  datatype Parser<Json> = Parser(current: string, events: seq<Event<Json>>)

  const DEFAULT_EVENT := "message"

  /** JSON.parse, which throws on malformed text. */
  type Decoder<Json> = string -> Option<Json>

  function ReadLine<Json>(p: Parser<Json>, line: string, decode: Decoder<Json>): Parser<Json> {
    var trimmed := Trim(line);
    if trimmed == "" then p.(current := DEFAULT_EVENT)
    else if StartsWith(trimmed, "event:") then p.(current := Trim(trimmed[6..]))
    else if StartsWith(trimmed, "data:") then
      var data := Trim(trimmed[5..]);
      if data == "" || data == "[DONE]" || decode(data).None? then p
      else p.(events := p.events + [Event(p.current, decode(data).value)])
    else p
  }

  function ReadLines<Json>(p: Parser<Json>, lines: seq<string>, decode: Decoder<Json>): Parser<Json>
    decreases |lines|
  {
    if lines == [] then p else ReadLines(ReadLine(p, lines[0], decode), lines[1..], decode)
  }

  /** One pass over the complete lines of a whole text. */
  function EventsOf<Json>(text: string, decode: Decoder<Json>): seq<Event<Json>> {
    ReadLines(Parser(DEFAULT_EVENT, []), Lines(text), decode).events
  }

  function Concat(parts: seq<string>): string {
    if parts == [] then "" else Concat(parts[..|parts| - 1]) + parts[|parts| - 1]
  }

  /** The reader's loop over decoded chunks. However the text was cut, the handler sees what one pass would see. */
  method ConsumeSSE<Json>(parts: seq<string>, decode: Decoder<Json>) returns (events: seq<Event<Json>>)
    ensures events == EventsOf(Concat(parts), decode)
  {
    events := [];
    var buffer := "";
    var current := DEFAULT_EVENT;
    for i := 0 to |parts|
      invariant buffer == Rest(Concat(parts[..i]))
      invariant Parser(current, events) == ReadLines(Parser(DEFAULT_EVENT, []), Lines(Concat(parts[..i])), decode)
    {
      ghost var before := Concat(parts[..i]);
      assert parts[..i + 1][..i] == parts[..i];
      SplitConcat(before, parts[i]);
      buffer := buffer + parts[i];
      var lines := Split(buffer, '\n');
      buffer := lines[|lines| - 1];
      lines := lines[..|lines| - 1];
      ReadLinesConcat(Parser(DEFAULT_EVENT, []), Lines(before), lines, decode);
      ghost var start := Parser(current, events);
      for j := 0 to |lines|
        invariant ReadLines(Parser(current, events), lines[j..], decode) == ReadLines(start, lines, decode)
      {
        var trimmed := Trim(lines[j]);
        assert lines[j..][1..] == lines[j + 1..];
        if trimmed == "" {
          current := DEFAULT_EVENT;
          continue;
        }
        if StartsWith(trimmed, "event:") {
          current := Trim(trimmed[6..]);
          continue;
        }
        if StartsWith(trimmed, "data:") {
          var data := Trim(trimmed[5..]);
          if data == "" || data == "[DONE]" {
            continue;
          }
          match decode(data) {
            case Some(value) => events := events + [Event(current, value)];
            case None =>
          }
        }
      }
    }
    assert parts[..|parts|] == parts;
  }

  // ---------- cutting the text ----------

  lemma {:induction false} SplitConcat(a: string, b: string)
    ensures Lines(a + b) == Lines(a) + Lines(Rest(a) + b)
    ensures Rest(a + b) == Rest(Rest(a) + b)
  {
    SplitOfConcat(a, b);
  }

  /** What one more character in front does to the pieces. */
  function Prepend(c: char, pieces: seq<string>): seq<string>
    requires |pieces| >= 1
  {
    if c == '\n' then [""] + pieces else [[c] + pieces[0]] + pieces[1..]
  }

  lemma {:induction false} SplitPrepend(c: char, text: string)
    ensures Split([c] + text, '\n') == Prepend(c, Split(text, '\n'))
  {
    assert ([c] + text)[1..] == text;
  }

  lemma {:induction false} PrependConcat(c: char, done: seq<string>, more: seq<string>)
    requires |done| >= 1 && |more| >= 1
    ensures Prepend(c, done + more) == Prepend(c, done) + more
  {
  }

  lemma {:induction false} PrependEnds(c: char, pieces: seq<string>)
    requires |pieces| >= 1
    ensures |Prepend(c, pieces)| >= 1
    ensures var all, n := Prepend(c, pieces), |Prepend(c, pieces)| - 1;
            if |pieces| > 1 then
              all[..n] == Prepend(c, pieces[..|pieces| - 1]) && all[n] == pieces[|pieces| - 1]
            else if c == '\n' then all[..n] == [""] && all[n] == pieces[0]
            else all[..n] == [] && all[n] == [c] + pieces[0]
  {
  }

  lemma {:induction false} LinesPrepend(c: char, t: string)
    ensures |Split(t, '\n')| > 1 ==> Lines([c] + t) == Prepend(c, Lines(t)) && Rest([c] + t) == Rest(t)
    ensures |Split(t, '\n')| == 1 && c == '\n' ==> Lines([c] + t) == [""] && Rest([c] + t) == Rest(t)
    ensures |Split(t, '\n')| == 1 && c != '\n' ==> Lines([c] + t) == [] && Rest([c] + t) == [c] + Rest(t)
  {
    var pieces := Split(t, '\n');
    SplitPrepend(c, t);
    PrependEnds(c, pieces);
    assert Lines(t) == pieces[..|pieces| - 1] && Rest(t) == pieces[|pieces| - 1];
  }

  /** Splitting a concatenation splits the second part with the unfinished line of the first in front of it. */
  lemma {:induction false} SplitOfConcat(a: string, b: string)
    ensures Split(a + b, '\n') == Lines(a) + Split(Rest(a) + b, '\n')
  {
    if a == "" {
      assert a + b == b && Rest(a) + b == b;
    } else {
      SplitOfConcat(a[1..], b);
      assert a == [a[0]] + a[1..];
      SplitOfConcatCons(a[0], a[1..], b);
    }
  }

  lemma {:induction false} SplitOfConcatCons(c: char, t: string, b: string)
    requires Split(t + b, '\n') == Lines(t) + Split(Rest(t) + b, '\n')
    ensures Split([c] + t + b, '\n') == Lines([c] + t) + Split(Rest([c] + t) + b, '\n')
  {
    assert [c] + t + b == [c] + (t + b);
    SplitPrepend(c, t + b);
    LinesPrepend(c, t);
    var more := Split(Rest(t) + b, '\n');
    if |Split(t, '\n')| > 1 {
      PrependConcat(c, Lines(t), more);
    } else {
      assert Lines(t) + more == more;
      if c != '\n' {
        assert Rest([c] + t) + b == [c] + (Rest(t) + b);
        SplitPrepend(c, Rest(t) + b);
        assert Lines([c] + t) + Prepend(c, more) == Prepend(c, more);
      }
    }
  }

  lemma {:induction false} ReadLinesConcat<Json>(p: Parser<Json>, a: seq<string>, b: seq<string>, decode: Decoder<Json>)
    ensures ReadLines(p, a + b, decode) == ReadLines(ReadLines(p, a, decode), b, decode)
    decreases |a|
  {
    if a == [] {
      assert a + b == b;
    } else {
      assert (a + b)[1..] == a[1..] + b;
      ReadLinesConcat(ReadLine(p, a[0], decode), a[1..], b, decode);
    }
  }

  // ---------- trimming ----------

  predicate AllSpace(s: string) {
    forall i :: 0 <= i < |s| ==> IsSpace(s[i])
  }

  predicate Trimmed(s: string) {
    s == "" || (!IsSpace(s[0]) && !IsSpace(s[|s| - 1]))
  }

  lemma {:induction false} TrimStartSpaces(spaces: string, s: string)
    requires AllSpace(spaces)
    ensures TrimStart(spaces + s) == TrimStart(s)
    decreases |spaces|
  {
    if spaces == "" {
      assert spaces + s == s;
    } else {
      assert (spaces + s)[1..] == spaces[1..] + s;
      TrimStartSpaces(spaces[1..], s);
    }
  }

  lemma {:induction false} TrimEndSpaces(s: string, spaces: string)
    requires AllSpace(spaces)
    ensures TrimEnd(s + spaces) == TrimEnd(s)
    decreases |spaces|
  {
    if spaces == "" {
      assert s + spaces == s;
    } else {
      var n := |spaces| - 1;
      assert (s + spaces)[..|s| + n] == s + spaces[..n];
      assert (s + spaces)[|s| + n] == spaces[n];
      TrimEndSpaces(s, spaces[..n]);
    }
  }

  /** Trim strips exactly the surrounding spaces. */
  lemma {:induction false} TrimIs(before: string, core: string, after: string)
    requires AllSpace(before) && AllSpace(after) && Trimmed(core)
    ensures Trim(before + core + after) == core
  {
    assert before + core + after == before + (core + after);
    TrimStartSpaces(before, core + after);
    if core == "" {
      assert core + after == after + "";
      TrimStartSpaces(after, "");
    } else {
      TrimEndSpaces(core, after);
    }
  }

  // ---------- printing ----------

  /** What the server sends: frames, whose data lines hold one JSON value each or nothing, and comments. */
  datatype Item<Json> =
    | Frame(name: string, data: seq<Option<Json>>)
    | Comment(text: string)

  type Encoder<!Json> = Json -> string

  /** One field line; `cr` is the optional carriage return before the newline. */
  function Field(field: string, value: string, cr: string): string {
    field + ": " + value + cr + "\n"
  }

  function DataLine<Json>(datum: Option<Json>, cr: string, encode: Encoder<Json>): string {
    Field("data", if datum.Some? then encode(datum.value) else "", cr)
  }

  function DataLines<Json>(data: seq<Option<Json>>, cr: string, encode: Encoder<Json>): string {
    if data == [] then "" else DataLine(data[0], cr, encode) + DataLines(data[1..], cr, encode)
  }

  function PrintItem<Json>(item: Item<Json>, cr: string, encode: Encoder<Json>): string {
    match item
    case Frame(name, data) => Field("event", name, cr) + DataLines(data, cr, encode) + cr + "\n"
    case Comment(text) => Field("", text, cr) + cr + "\n"
  }

  function Print<Json>(items: seq<Item<Json>>, cr: string, encode: Encoder<Json>): string {
    if items == [] then "" else PrintItem(items[0], cr, encode) + Print(items[1..], cr, encode)
  }

  /** The handler calls owed to one frame: one for each data line that is not empty. */
  function Calls<Json>(name: string, data: seq<Option<Json>>): seq<Event<Json>> {
    if data == [] then []
    else (if data[0].Some? then [Event(name, data[0].value)] else []) + Calls(name, data[1..])
  }

  function CallsOf<Json>(items: seq<Item<Json>>): seq<Event<Json>> {
    if items == [] then [] else ItemCalls(items[0]) + CallsOf(items[1..])
  }

  function ItemCalls<Json>(item: Item<Json>): seq<Event<Json>> {
    if item.Frame? then Calls(item.name, item.data) else []
  }

  /** The encoder writes one trimmed, non-empty line that the decoder reads back. */
  ghost predicate Codec<Json(!new)>(encode: Encoder<Json>, decode: Decoder<Json>) {
    forall v ::
      && decode(encode(v)) == Some(v) && '\n' !in encode(v) && Trimmed(encode(v))
      && encode(v) != "" && encode(v) != "[DONE]"
  }

  predicate Printable<Json>(item: Item<Json>) {
    match item
    case Frame(name, _) => '\n' !in name && Trimmed(name)
    case Comment(text) => '\n' !in text
  }

  predicate AllPrintable<Json>(items: seq<Item<Json>>) {
    items == [] || (Printable(items[0]) && AllPrintable(items[1..]))
  }

  predicate LineEnd(cr: string) {
    cr == "" || cr == "\r"
  }

  // ---------- reading back ----------

  lemma {:induction false} FirstLine(line: string, rest: string)
    requires '\n' !in line
    ensures Lines(line + "\n" + rest) == [line] + Lines(rest)
  {
    if line == "" {
      assert line + "\n" + rest == ['\n'] + rest;
      SplitPrepend('\n', rest);
    } else {
      FirstLine(line[1..], rest);
      assert line + "\n" + rest == [line[0]] + (line[1..] + "\n" + rest);
      LinesPrepend(line[0], line[1..] + "\n" + rest);
      assert [line[0]] + line[1..] == line;
    }
  }

  lemma {:induction false} ReadFirst<Json>(p: Parser<Json>, line: string, rest: string, decode: Decoder<Json>)
    requires '\n' !in line
    ensures ReadLines(p, Lines(line + "\n" + rest), decode) == ReadLines(ReadLine(p, line, decode), Lines(rest), decode)
  {
    FirstLine(line, rest);
    assert ([line] + Lines(rest))[1..] == Lines(rest);
  }

  lemma {:induction false} FieldTrimsTo(field: string, value: string, cr: string)
    requires field != "" && Trimmed(field) && Trimmed(value) && LineEnd(cr)
    ensures Trim(field + ": " + value + cr) == field + if value == "" then ":" else ": " + value
  {
    var line := field + ": " + value + cr;
    if value == "" {
      assert line == "" + (field + ":") + (" " + cr);
      TrimIs("", field + ":", " " + cr);
    } else {
      assert line == "" + (field + ": " + value) + cr;
      TrimIs("", field + ": " + value, cr);
    }
  }

  /** A field line trims to the field and, after the colon, its value. */
  lemma {:induction false} FieldTrims(field: string, value: string, cr: string)
    requires field != "" && Trimmed(field) && Trimmed(value) && LineEnd(cr)
    ensures var trimmed := Trim(field + ": " + value + cr);
            && StartsWith(trimmed, field + ":")
            && Trim(trimmed[|field| + 1..]) == value
  {
    FieldTrimsTo(field, value, cr);
    if value == "" {
      assert (field + ":")[|field| + 1..] == "";
    } else {
      var trimmed := field + (": " + value);
      assert trimmed[..|field| + 1] == field + ":";
      assert trimmed[|field| + 1..] == " " + value + "";
      TrimIs(" ", value, "");
    }
  }

  /** A line that starts with a colon is a comment: it changes nothing. */
  lemma {:induction false} ReadComment<Json>(p: Parser<Json>, line: string, decode: Decoder<Json>)
    requires line != "" && line[0] == ':'
    ensures ReadLine(p, line, decode) == p
  {
    TrimKeepsHead(line);
  }

  lemma {:induction false} TrimKeepsHead(s: string)
    requires s != "" && !IsSpace(s[0])
    ensures TrimEnd(s) != "" && TrimEnd(s)[0] == s[0] && Trim(s) == TrimEnd(s)
  {
    if IsSpace(s[|s| - 1]) {
      TrimKeepsHead(s[..|s| - 1]);
    }
  }

  lemma {:induction false} ReadBlank<Json>(p: Parser<Json>, cr: string, decode: Decoder<Json>)
    requires LineEnd(cr)
    ensures ReadLine(p, cr, decode) == p.(current := DEFAULT_EVENT)
  {
    assert cr == "" + "" + cr;
    TrimIs("", "", cr);
  }

  lemma {:induction false} ReadEventField<Json>(p: Parser<Json>, name: string, cr: string, decode: Decoder<Json>)
    requires Trimmed(name) && LineEnd(cr)
    ensures ReadLine(p, "event: " + name + cr, decode) == p.(current := name)
  {
    FieldTrims("event", name, cr);
    assert "event" + ": " + name + cr == "event: " + name + cr;
  }

  lemma {:induction false} DataFieldTrims(value: string, cr: string)
    requires Trimmed(value) && LineEnd(cr)
    ensures var trimmed := Trim("data: " + value + cr);
            && trimmed != "" && !StartsWith(trimmed, "event:") && StartsWith(trimmed, "data:")
            && Trim(trimmed[5..]) == value
  {
    FieldTrims("data", value, cr);
    assert "data: " + value + cr == "data" + ": " + value + cr && "data" + ":" == "data:";
    var trimmed := Trim("data: " + value + cr);
    assert trimmed[..5] == "data:" && trimmed[0] == 'd';
  }

  lemma {:induction false} ReadDataField<Json>(p: Parser<Json>, value: string, cr: string, decode: Decoder<Json>)
    requires Trimmed(value) && LineEnd(cr) && value != "[DONE]" && (value != "" ==> decode(value).Some?)
    ensures ReadLine(p, "data: " + value + cr, decode)
         == if value == "" then p else p.(events := p.events + [Event(p.current, decode(value).value)])
  {
    DataFieldTrims(value, cr);
  }

  /** The parser after the calls one datum owes. */
  function AfterDatum<Json>(p: Parser<Json>, datum: Option<Json>): Parser<Json> {
    if datum.Some? then p.(events := p.events + [Event(p.current, datum.value)]) else p
  }

  lemma {:induction false} ReadDataLine<Json(!new)>(
      p: Parser<Json>, datum: Option<Json>, cr: string, rest: string, encode: Encoder<Json>, decode: Decoder<Json>)
    requires Codec(encode, decode) && LineEnd(cr)
    ensures ReadLines(p, Lines(DataLine(datum, cr, encode) + rest), decode)
         == ReadLines(AfterDatum(p, datum), Lines(rest), decode)
  {
    var value := if datum.Some? then encode(datum.value) else "";
    var line := "data: " + value + cr;
    assert DataLine(datum, cr, encode) + rest == line + "\n" + rest;
    if datum.Some? {
      assert decode(encode(datum.value)) == Some(datum.value);
    }
    assert '\n' !in line;
    ReadFirst(p, line, rest, decode);
    ReadDataField(p, value, cr, decode);
  }

  lemma {:induction false} ReadDataLines<Json(!new)>(
      p: Parser<Json>, data: seq<Option<Json>>, cr: string, rest: string, encode: Encoder<Json>, decode: Decoder<Json>)
    requires Codec(encode, decode) && LineEnd(cr)
    ensures ReadLines(p, Lines(DataLines(data, cr, encode) + rest), decode)
         == ReadLines(p.(events := p.events + Calls(p.current, data)), Lines(rest), decode)
    decreases |data|
  {
    if data == [] {
      assert DataLines(data, cr, encode) + rest == rest && p.events + [] == p.events;
    } else {
      var more := DataLines(data[1..], cr, encode) + rest;
      assert DataLines(data, cr, encode) + rest == DataLine(data[0], cr, encode) + more;
      ReadDataLine(p, data[0], cr, more, encode, decode);
      var q := AfterDatum(p, data[0]);
      ReadDataLines(q, data[1..], cr, rest, encode, decode);
      CallsUnfold(p, data);
    }
  }

  lemma {:induction false} CallsUnfold<Json>(p: Parser<Json>, data: seq<Option<Json>>)
    requires data != []
    ensures var q := AfterDatum(p, data[0]);
            q.(events := q.events + Calls(q.current, data[1..])) == p.(events := p.events + Calls(p.current, data))
  {
  }

  lemma {:induction false} ReadFrame<Json(!new)>(
      p: Parser<Json>, name: string, data: seq<Option<Json>>, cr: string, rest: string,
      encode: Encoder<Json>, decode: Decoder<Json>)
    requires Codec(encode, decode) && LineEnd(cr) && '\n' !in name && Trimmed(name)
    ensures ReadLines(p, Lines(PrintItem(Frame(name, data), cr, encode) + rest), decode)
         == ReadLines(Parser(DEFAULT_EVENT, p.events + Calls(name, data)), Lines(rest), decode)
  {
    var line := "event: " + name + cr;
    var blank := cr + "\n" + rest;
    assert PrintItem(Frame(name, data), cr, encode) + rest == line + "\n" + (DataLines(data, cr, encode) + blank);
    ReadFirst(p, line, DataLines(data, cr, encode) + blank, decode);
    ReadEventField(p, name, cr, decode);
    ReadDataLines(p.(current := name), data, cr, blank, encode, decode);
    var q := Parser(name, p.events + Calls(name, data));
    ReadFirst(q, cr, rest, decode);
    ReadBlank(q, cr, decode);
  }

  lemma {:induction false} ReadCommentItem<Json>(
      p: Parser<Json>, text: string, cr: string, rest: string, encode: Encoder<Json>, decode: Decoder<Json>)
    requires LineEnd(cr) && '\n' !in text
    ensures ReadLines(p, Lines(PrintItem(Comment(text), cr, encode) + rest), decode)
         == ReadLines(Parser(DEFAULT_EVENT, p.events), Lines(rest), decode)
  {
    var line := ": " + text + cr;
    assert PrintItem(Comment(text), cr, encode) + rest == line + "\n" + (cr + "\n" + rest);
    ReadFirst(p, line, cr + "\n" + rest, decode);
    ReadComment(p, line, decode);
    ReadFirst(p, cr, rest, decode);
    ReadBlank(p, cr, decode);
  }

  lemma {:induction false} ReadPrinted<Json(!new)>(
      p: Parser<Json>, items: seq<Item<Json>>, cr: string, encode: Encoder<Json>, decode: Decoder<Json>)
    requires Codec(encode, decode) && LineEnd(cr) && p.current == DEFAULT_EVENT && AllPrintable(items)
    ensures ReadLines(p, Lines(Print(items, cr, encode)), decode).events == p.events + CallsOf(items)
    decreases |items|
  {
    if items == [] {
      assert p.events + [] == p.events;
    } else {
      var rest := Print(items[1..], cr, encode);
      var q := Parser(DEFAULT_EVENT, p.events + ItemCalls(items[0]));
      ReadItem(p, items[0], cr, rest, encode, decode);
      ReadPrinted(q, items[1..], cr, encode, decode);
      AppendCalls(p.events, items);
    }
  }

  lemma {:induction false} AppendCalls<Json>(events: seq<Event<Json>>, items: seq<Item<Json>>)
    requires items != []
    ensures events + ItemCalls(items[0]) + CallsOf(items[1..]) == events + CallsOf(items)
  {
    ConcatAssoc(events, ItemCalls(items[0]), CallsOf(items[1..]));
  }

  lemma {:induction false} ReadItem<Json(!new)>(
      p: Parser<Json>, item: Item<Json>, cr: string, rest: string, encode: Encoder<Json>, decode: Decoder<Json>)
    requires Codec(encode, decode) && LineEnd(cr) && p.current == DEFAULT_EVENT && Printable(item)
    ensures ReadLines(p, Lines(PrintItem(item, cr, encode) + rest), decode)
         == ReadLines(Parser(DEFAULT_EVENT, p.events + ItemCalls(item)), Lines(rest), decode)
  {
    match item {
      case Frame(name, data) => ReadFrame(p, name, data, cr, rest, encode, decode);
      case Comment(text) =>
        ReadCommentItem(p, text, cr, rest, encode, decode);
        assert p.events + [] == p.events;
    }
  }

  /** Printing any list of frames and comments and parsing the text gives back, in order and under its own event
      name, one call for each data line that is not empty; a frame with empty data gives none. */
  lemma {:induction false} RoundTrip<Json(!new)>(
      items: seq<Item<Json>>, cr: string, encode: Encoder<Json>, decode: Decoder<Json>)
    requires Codec(encode, decode) && LineEnd(cr) && AllPrintable(items)
    ensures EventsOf(Print(items, cr, encode), decode) == CallsOf(items)
  {
    ReadPrinted(Parser(DEFAULT_EVENT, []), items, cr, encode, decode);
    assert [] + CallsOf(items) == CallsOf(items);
  }

  // ---------- what each line does, however it is spaced ----------

  /** The characters trimmed, by their code points. */
  lemma {:induction false} SpacesExactly(c: char)
    ensures IsSpace(c) <==>
            c as int in {9, 10, 11, 12, 13, 32, 160, 5760, 8192, 8193, 8194, 8195, 8196, 8197, 8198, 8199, 8200, 8201,
                         8202, 8232, 8233, 8239, 8287, 12288, 65279}
  {
  }

  lemma {:induction false} SpacedFieldTrimsTo(
      field: string, before: string, spaces: string, value: string, after: string)
    requires field != "" && Trimmed(field) && Trimmed(value) && AllSpace(before) && AllSpace(spaces) && AllSpace(after)
    ensures Trim(before + (field + ":" + spaces + value) + after)
         == if value == "" then field + ":" else field + ":" + spaces + value
  {
    if value == "" {
      assert before + (field + ":" + spaces + value) + after == before + (field + ":") + (spaces + after);
      TrimIs(before, field + ":", spaces + after);
    } else {
      TrimIs(before, field + ":" + spaces + value, after);
    }
  }

  lemma {:induction false} SpacedField(field: string, before: string, spaces: string, value: string, after: string)
    requires field != "" && Trimmed(field) && Trimmed(value) && AllSpace(before) && AllSpace(spaces) && AllSpace(after)
    ensures var trimmed := Trim(before + (field + ":" + spaces + value) + after);
            StartsWith(trimmed, field + ":") && Trim(trimmed[|field| + 1..]) == value
  {
    SpacedFieldTrimsTo(field, before, spaces, value, after);
    var trimmed := Trim(before + (field + ":" + spaces + value) + after);
    if value == "" {
      assert trimmed[|field| + 1..] == "";
    } else {
      assert trimmed == field + ":" + (spaces + value);
      assert trimmed[|field| + 1..] == spaces + value + "";
      TrimIs(spaces, value, "");
    }
  }

  /** An event field names the events that follow, whatever white space stands around its value. */
  lemma {:induction false} EventLineReads<Json>(
      p: Parser<Json>, before: string, spaces: string, name: string, after: string, decode: Decoder<Json>)
    requires Trimmed(name) && AllSpace(before) && AllSpace(spaces) && AllSpace(after)
    ensures ReadLine(p, before + ("event:" + spaces + name) + after, decode) == p.(current := name)
  {
    SpacedField("event", before, spaces, name, after);
    assert "event" + ":" + spaces + name == "event:" + spaces + name && "event" + ":" == "event:";
  }

  /** A data field calls the handler with its JSON under the current name; one that is empty, is [DONE], or is no JSON
      does nothing. */
  lemma {:induction false} DataLineReads<Json>(
      p: Parser<Json>, before: string, spaces: string, value: string, after: string, decode: Decoder<Json>)
    requires Trimmed(value) && AllSpace(before) && AllSpace(spaces) && AllSpace(after)
    ensures ReadLine(p, before + ("data:" + spaces + value) + after, decode)
         == if value != "" && value != "[DONE]" && decode(value).Some?
            then Parser(p.current, p.events + [Event(p.current, decode(value).value)]) else p
  {
    SpacedField("data", before, spaces, value, after);
    assert "data" + ":" + spaces + value == "data:" + spaces + value && "data" + ":" == "data:";
    var trimmed := Trim(before + ("data:" + spaces + value) + after);
    assert trimmed[..5] == "data:" && trimmed[0] == 'd';
  }

  /** A blank line ends the frame: the next event goes by the default name. */
  lemma {:induction false} BlankLineReads<Json>(p: Parser<Json>, blank: string, decode: Decoder<Json>)
    requires AllSpace(blank)
    ensures ReadLine(p, blank, decode) == Parser("message", p.events)
  {
    assert blank == "" + "" + blank;
    TrimIs("", "", blank);
  }

  /** Any other line does nothing. */
  lemma {:induction false} OtherLineReads<Json>(p: Parser<Json>, line: string, decode: Decoder<Json>)
    requires Trim(line) != "" && !StartsWith(Trim(line), "event:") && !StartsWith(Trim(line), "data:")
    ensures ReadLine(p, line, decode) == p
  {
  }
}
