/** The gateway's filter over an event stream that answers tools/list: parse it as a client would, keep what may be
    kept, write it out again. Framing after sections 9.2.5 and 9.2.6 of the HTML Living Standard. */
module SseFilter {
  import opened Options
  import opened Text

  // ---- JSON-RPC messages ------------------------------------------------------------------------

  datatype Json = Null | Bool(b: bool) | Num(digits: string) | Str(s: string) | Arr(items: seq<Json>) | Obj(fields: seq<Field>)

  datatype Field = Field(key: string, value: Json)

  /** How the gateway prints and parses JSON, when two ids are equal, and which tools are advertised. */
  datatype Gateway = Gateway(
    dumps: Json -> string, loads: string -> Option<Json>, same: (Json, Json) -> bool, allowed: set<string>) {

    /** The printer writes one line that is not blank and that the strict parser reads back; equality is reflexive. */
    ghost predicate Lawful() {
      && (forall j :: Printed(j))
      && forall j :: same(j, j)
    }

    ghost predicate Printed(j: Json) {
      loads(dumps(j)) == Some(j) && NoBreak(dumps(j)) && !Blank(dumps(j))
    }
  }

  function Lookup(fields: seq<Field>, key: string): Option<Json> {
    if fields == [] then None
    else if fields[0].key == key then Some(fields[0].value)
    else Lookup(fields[1..], key)
  }

  /** Assigning to a key of a dictionary. */
  function Assign(fields: seq<Field>, key: string, value: Json): seq<Field> {
    if fields == [] then [Field(key, value)]
    else if fields[0].key == key then [Field(key, value)] + fields[1..]
    else [fields[0]] + Assign(fields[1..], key, value)
  }

  predicate Has(msg: Json, key: string) {
    msg.Obj? && Lookup(msg.fields, key).Some?
  }

  function Get(msg: Json, key: string): Json
    requires msg.Obj?
  {
    match Lookup(msg.fields, key)
    case Some(v) => v
    case None => Null
  }

  lemma {:induction false} LookupAssigned(fields: seq<Field>, key: string, value: Json, other: string)
    ensures Lookup(Assign(fields, key, value), other) == if other == key then Some(value) else Lookup(fields, other)
  {
    if fields != [] && fields[0].key != key {
      LookupAssigned(fields[1..], key, value, other);
    }
  }

  lemma {:induction false} AssignSame(fields: seq<Field>, key: string)
    requires Lookup(fields, key).Some?
    ensures Assign(fields, key, Lookup(fields, key).value) == fields
  {
    if fields[0].key != key {
      AssignSame(fields[1..], key);
    } else {
      assert fields == [fields[0]] + fields[1..];
    }
  }

  predicate Advertised(g: Gateway, tool: Json) {
    tool.Obj? && Get(tool, "name").Str? && Get(tool, "name").s in g.allowed
  }

  /** The tools on the allow-list, in order. */
  function Allowed(g: Gateway, tools: seq<Json>): seq<Json> {
    if tools == [] then []
    else if Advertised(g, tools[|tools| - 1]) then Allowed(g, tools[..|tools| - 1]) + [tools[|tools| - 1]]
    else Allowed(g, tools[..|tools| - 1])
  }

  /** A tools/list reply cut down to the allow-list; None where the reply cannot be filtered. */
  function FilterToolsList(g: Gateway, payload: Json): Option<Json> {
    if !payload.Obj? then None
    else if !Has(payload, "result") then
      if Has(payload, "error") || Has(payload, "method") then Some(payload) else None
    else
      var result := Get(payload, "result");
      if !result.Obj? || !Get(result, "tools").Arr? then None
      else
        var tools := Arr(Allowed(g, Get(result, "tools").items));
        Some(Obj(Assign(payload.fields, "result", Obj(Assign(result.fields, "tools", tools)))))
  }

  function ClosedToolsList(id: Json): Json {
    Obj([Field("jsonrpc", Str("2.0")), Field("id", id), Field("result", Obj([Field("tools", Arr([]))]))])
  }

  /** What one event's data becomes; None drops the event. */
  function EventPayload(g: Gateway, data: string, id: Json): Option<Json> {
    match g.loads(data)
    case None => Some(ClosedToolsList(id))
    case Some(msg) => Answer(g, msg, id)
  }

  function Answer(g: Gateway, msg: Json, id: Json): Option<Json> {
    if msg.Obj? && (Has(msg, "result") || Has(msg, "error")) && !g.same(Get(msg, "id"), id) then None
    else
      match FilterToolsList(g, msg)
      case Some(p) => Some(p)
      case None => Some(ClosedToolsList(id))
  }

  // ---- what may be sent -------------------------------------------------------------------------

  predicate OnlyAllowed(g: Gateway, tools: seq<Json>) {
    forall i :: 0 <= i < |tools| ==> Advertised(g, tools[i])
  }

  /** An error answering this request; a notification or a request of the server's; or an answer to this request
      that lists tools on the allow-list and no other. */
  predicate Sound(g: Gateway, p: Json, id: Json) {
    p.Obj?
    && if Has(p, "result") then
         && g.same(Get(p, "id"), id)
         && Get(p, "result").Obj? && Get(Get(p, "result"), "tools").Arr?
         && OnlyAllowed(g, Get(Get(p, "result"), "tools").items)
       else if Has(p, "error") then g.same(Get(p, "id"), id)
       else Has(p, "method")
  }

  lemma {:induction false} AllowedIsAllowed(g: Gateway, tools: seq<Json>)
    ensures OnlyAllowed(g, Allowed(g, tools))
  {
    if tools != [] {
      hide Advertised;
      AllowedIsAllowed(g, tools[..|tools| - 1]);
    }
  }

  /** Nothing on the allow-list is lost: what is allowed already passes unchanged. */
  lemma {:induction false} AllowedKeeps(g: Gateway, tools: seq<Json>)
    requires OnlyAllowed(g, tools)
    ensures Allowed(g, tools) == tools
  {
    if tools != [] {
      hide Advertised;
      AllowedKeeps(g, tools[..|tools| - 1]);
      assert tools == tools[..|tools| - 1] + [tools[|tools| - 1]];
    }
  }

  lemma {:induction false} AllowedMembers(g: Gateway, tools: seq<Json>, t: Json)
    ensures t in Allowed(g, tools) <==> t in tools && Advertised(g, t)
  {
    if tools != [] {
      hide Advertised;
      AllowedMembers(g, tools[..|tools| - 1], t);
      assert tools == tools[..|tools| - 1] + [tools[|tools| - 1]];
    }
  }

  /** A reply that can be filtered keeps everything but its tools, and of those exactly the allowed ones, in order. */
  lemma {:induction false} FilteredReply(g: Gateway, payload: Json, key: string)
    requires FilterToolsList(g, payload).Some? && Has(payload, "result")
    ensures var p := FilterToolsList(g, payload).value;
      && Has(p, "result") && (key != "result" ==> Lookup(p.fields, key) == Lookup(payload.fields, key))
      && Get(p, "result").Obj?
      && Get(Get(p, "result"), "tools") == Arr(Allowed(g, Get(Get(payload, "result"), "tools").items))
      && (key != "tools" ==>
            Lookup(Get(p, "result").fields, key) == Lookup(Get(payload, "result").fields, key))
    ensures var before := Get(Get(payload, "result"), "tools").items;
      var after := Get(Get(FilterToolsList(g, payload).value, "result"), "tools").items;
      forall t :: t in after <==> t in before && Advertised(g, t)
  {
    hide Lookup, Assign, Allowed, Advertised;
    forall t ensures t in Allowed(g, Get(Get(payload, "result"), "tools").items)
      <==> t in Get(Get(payload, "result"), "tools").items && Advertised(g, t)
    {
      AllowedMembers(g, Get(Get(payload, "result"), "tools").items, t);
    }
    var result := Get(payload, "result");
    var tools := Arr(Allowed(g, Get(result, "tools").items));
    var filtered := Obj(Assign(result.fields, "tools", tools));
    LookupAssigned(payload.fields, "result", filtered, key);
    LookupAssigned(payload.fields, "result", filtered, "result");
    LookupAssigned(result.fields, "tools", tools, key);
    LookupAssigned(result.fields, "tools", tools, "tools");
  }

  lemma {:induction false} ClosedIsSound(g: Gateway, id: Json)
    requires g.same(id, id)
    ensures Sound(g, ClosedToolsList(id), id)
    ensures var closed := ClosedToolsList(id);
      && Get(closed, "jsonrpc") == Str("2.0") && Get(closed, "id") == id
      && Get(closed, "result") == Obj([Field("tools", Arr([]))])
  {
    var fields := ClosedToolsList(id).fields;
    assert fields[1..][1..] == fields[2..] && fields[1..][0] == Field("id", id);
    assert Lookup(fields[2..], "result") == Some(fields[2].value);
    assert Lookup(fields[1..], "result") == Some(fields[2].value);
    assert Lookup(fields, "id") == Some(id);
    assert Lookup(fields, "result") == Some(fields[2].value);
    assert Lookup(fields[2].value.fields, "tools") == Some(Arr([]));
  }

  /** Whatever the upstream sent, what goes out is sound. */
  lemma {:induction false} AnswerIsSound(g: Gateway, msg: Json, id: Json)
    requires g.same(id, id) && Answer(g, msg, id).Some?
    ensures Sound(g, Answer(g, msg, id).value, id)
  {
    hide Lookup, Assign, Allowed, ClosedToolsList;
    ClosedIsSound(g, id);
    if FilterToolsList(g, msg).Some? && Has(msg, "result") {
      FilteredReply(g, msg, "id");
      AllowedIsAllowed(g, Get(Get(msg, "result"), "tools").items);
    }
  }

  /** A sound payload passes as it is. */
  lemma {:induction false} SoundPasses(g: Gateway, p: Json, id: Json)
    requires Sound(g, p, id)
    ensures Answer(g, p, id) == Some(p)
  {
    hide Lookup, Assign, Allowed, ClosedToolsList;
    if Has(p, "result") {
      var result := Get(p, "result");
      AllowedKeeps(g, Get(result, "tools").items);
      AssignSame(result.fields, "tools");
      AssignSame(p.fields, "result");
    }
  }

  // ---- which replies are filtered, and to what --------------------------------------------------

  /** An object with a `result` that is an object with a list `tools`. */
  ghost predicate ListsTools(msg: Json) {
    Has(msg, "result") && Get(msg, "result").Obj? && Get(Get(msg, "result"), "tools").Arr?
  }

  /** A response to another request. */
  ghost predicate Foreign(g: Gateway, msg: Json, id: Json) {
    (Has(msg, "result") || Has(msg, "error")) && !g.same(Get(msg, "id"), id)
  }

  /** What cannot be filtered: no object, a result without a list of tools, or neither response, request nor
      notification. */
  ghost predicate Refused(msg: Json) {
    !ListsTools(msg) && (Has(msg, "result") || !(Has(msg, "error") || Has(msg, "method")))
  }

  /** A tool whose name is a string on the allow-list. */
  ghost predicate OnList(g: Gateway, tool: Json) {
    exists n :: n in g.allowed && tool.Obj? && Lookup(tool.fields, "name") == Some(Str(n))
  }

  /** `after` are those of `before` that are on the allow-list, each once and in order: `at` says where they stand. */
  ghost predicate Picks(g: Gateway, before: seq<Json>, after: seq<Json>, at: seq<int>) {
    && |at| == |after|
    && (forall k :: 0 <= k < |at| ==> 0 <= at[k] < |before| && after[k] == before[at[k]])
    && (forall k, l :: 0 <= k < l < |at| ==> at[k] < at[l])
    && forall i :: 0 <= i < |before| ==> (i in at <==> OnList(g, before[i]))
  }

  /** The same fields in the same order; only the first one named `key` may have another value. */
  ghost predicate SameBut(fields: seq<Field>, fields': seq<Field>, key: string) {
    && |fields| == |fields'|
    && forall i :: 0 <= i < |fields| ==>
         && fields[i].key == fields'[i].key
         && (fields[i] == fields'[i] || (fields[i].key == key && forall j :: 0 <= j < i ==> fields[j].key != key))
  }

  /** `p` is `msg` with the tools of its result cut down to the allow-list, and is otherwise the same. */
  ghost predicate Trimmed(g: Gateway, msg: Json, p: Json, at: seq<int>) {
    && ListsTools(msg) && ListsTools(p) && SameBut(msg.fields, p.fields, "result")
    && SameBut(Get(msg, "result").fields, Get(p, "result").fields, "tools")
    && Picks(g, Get(Get(msg, "result"), "tools").items, Get(Get(p, "result"), "tools").items, at)
  }

  /** What goes out for one event's data, if anything does. */
  ghost predicate Replies(g: Gateway, data: string, id: Json, sent: Option<Json>, at: seq<int>) {
    match g.loads(data)
    case None => sent == Some(ClosedToolsList(id))
    case Some(msg) =>
      if Foreign(g, msg, id) then sent == None
      else if Refused(msg) then sent == Some(ClosedToolsList(id))
      else if ListsTools(msg) then sent.Some? && Trimmed(g, msg, sent.value, at)
      else sent == Some(msg)
  }

  lemma {:induction false} AssignKeeps(fields: seq<Field>, key: string, value: Json)
    requires Lookup(fields, key).Some?
    ensures SameBut(fields, Assign(fields, key, value), key)
  {
    if fields[0].key != key {
      AssignKeeps(fields[1..], key, value);
      var rest := Assign(fields[1..], key, value);
      forall i | 0 <= i < |fields|
        ensures fields[i].key == ([fields[0]] + rest)[i].key
        ensures fields[i] == ([fields[0]] + rest)[i]
          || (fields[i].key == key && forall j :: 0 <= j < i ==> fields[j].key != key)
      {
        if i > 0 {
          assert fields[i] == fields[1..][i - 1];
          forall j | 0 < j < i ensures fields[j] == fields[1..][j - 1] {
          }
        }
      }
    }
  }

  lemma {:induction false} AllowedPicks(g: Gateway, tools: seq<Json>) returns (at: seq<int>)
    ensures Picks(g, tools, Allowed(g, tools), at)
  {
    at := [];
    if tools != [] {
      hide Lookup;
      var front, last := tools[..|tools| - 1], tools[|tools| - 1];
      at := AllowedPicks(g, front);
      assert forall i :: 0 <= i < |front| ==> tools[i] == front[i];
      assert Advertised(g, last) <==> OnList(g, last);
      assert |front| !in at;
      if Advertised(g, last) {
        at := at + [|front|];
      }
    }
  }

  /** For every data of an event: an answer to another request is dropped; the empty list goes out exactly where the
      data does not parse or is a message that cannot be filtered; a list of tools goes out with exactly those on the
      allow-list and nothing else changed; any other message goes out as it is. */
  lemma {:induction false} ReplyIs(g: Gateway, data: string, id: Json) returns (at: seq<int>)
    ensures Replies(g, data, id, EventPayload(g, data, id), at)
  {
    hide Lookup, Assign, Allowed, ClosedToolsList, Picks, SameBut;
    at := [];
    if g.loads(data).Some? {
      var msg := g.loads(data).value;
      if ListsTools(msg) {
        var result := Get(msg, "result");
        var items := Get(result, "tools").items;
        at := AllowedPicks(g, items);
        var tools := Arr(Allowed(g, items));
        var filtered := Obj(Assign(result.fields, "tools", tools));
        AssignKeeps(result.fields, "tools", tools);
        AssignKeeps(msg.fields, "result", filtered);
        LookupAssigned(result.fields, "tools", tools, "tools");
        LookupAssigned(msg.fields, "result", filtered, "result");
      }
    }
  }

  // ---- the stream -------------------------------------------------------------------------------

  const BOM := '\U{feff}'
  const CR := '\r'

  predicate NoBreak(s: string) {
    CR !in s && NL !in s
  }

  /** Lines end at CRLF, CR or LF; the last one may be empty. */
  function SplitEol(s: string): (lines: seq<string>)
    ensures |lines| > 0
    decreases |s|
  {
    if s == [] then [[]]
    else if s[0] == CR && |s| > 1 && s[1] == NL then [[]] + SplitEol(s[2..])
    else if s[0] == CR || s[0] == NL then [[]] + SplitEol(s[1..])
    else
      var rest := SplitEol(s[1..]);
      [[s[0]] + rest[0]] + rest[1..]
  }

  datatype Grouping = Grouping(events: seq<seq<string>>, cur: seq<string>)

  function GroupStep(g: Grouping, line: string): Grouping {
    if line != [] then g.(cur := g.cur + [line])
    else Grouping(if g.cur == [] then g.events else g.events + [g.cur], [])
  }

  function Group(lines: seq<string>): Grouping {
    if lines == [] then Grouping([], []) else GroupStep(Group(lines[..|lines| - 1]), lines[|lines| - 1])
  }

  /** The last event needs no blank line after it. */
  function Closed(g: Grouping): seq<seq<string>> {
    if g.cur == [] then g.events else g.events + [g.cur]
  }

  datatype Event = Event(kind: string, typed: bool, id: Option<string>, retry: Option<string>, data: Option<seq<string>>)

  const NO_FIELDS := Event("message", false, None, None, None)

  function Colon(line: string): (k: nat)
    ensures k <= |line|
  {
    if line == [] || line[0] == ':' then 0 else 1 + Colon(line[1..])
  }

  /** `partition(":")` and one optional space. */
  function ValueOf(line: string): string {
    var k := Colon(line);
    if k == |line| then []
    else if k + 1 < |line| && line[k + 1] == ' ' then line[k + 2..]
    else line[k + 1..]
  }

  function ReadField(e: Event, line: string): Event {
    var name, value := line[..Colon(line)], ValueOf(line);
    if line != [] && line[0] == ':' then e
    else if name == "data" then e.(data := Some((if e.data.Some? then e.data.value else []) + [value]))
    else if name == "event" then e.(kind := value, typed := true)
    else if name == "id" then e.(id := Some(value))
    else if name == "retry" then e.(retry := Some(value))
    else e
  }

  function ReadFields(lines: seq<string>): Event {
    if lines == [] then NO_FIELDS else ReadField(ReadFields(lines[..|lines| - 1]), lines[|lines| - 1])
  }

  function ReadAll(events: seq<seq<string>>): seq<Event> {
    if events == [] then [] else ReadAll(events[..|events| - 1]) + [ReadFields(events[|events| - 1])]
  }

  function WithoutBom(text: string): string {
    if text != [] && text[0] == BOM then text[1..] else text
  }

  /** The events a client reads. */
  function Parse(text: string): seq<Event> {
    ReadAll(Closed(Group(SplitEol(WithoutBom(text)))))
  }

  // ---- how a stream is read, end by end and field by field ----------------------------------------

  /** LF, CR and CRLF end a line, nothing else does, and CRLF ends one line only. */
  lemma {:induction false} LinesEnd(line: string, eol: string, rest: string)
    requires NoBreak(line) && eol in {[NL], [CR], [CR, NL]} && (eol == [CR] && rest != [] ==> rest[0] != NL)
    ensures SplitEol(line + eol + rest) == [line] + SplitEol(rest) && SplitEol(line) == [line]
    decreases |line|
  {
    var s := line + eol + rest;
    if line == [] {
      assert s == eol + rest && s[|eol|..] == rest;
      assert s[0] == eol[0];
    } else {
      LinesEnd(line[1..], eol, rest);
      assert s[1..] == line[1..] + eol + rest;
      var more := SplitEol(s[1..]);
      assert more[0] == line[1..] && more[1..] == SplitEol(rest);
      assert line == [line[0]] + line[1..];
      assert s[0] == line[0] && line[0] in line;
    }
  }

  /** One byte order mark in front is not part of the stream. */
  lemma {:induction false} BomIsDropped(text: string)
    requires text == [] || text[0] != BOM
    ensures Parse([BOM] + text) == Parse(text) && Parse(text) == ReadAll(Closed(Group(SplitEol(text))))
  {
    hide SplitEol, Group, ReadAll, Closed;
    assert ([BOM] + text)[1..] == text;
  }

  lemma {:induction false} GroupRun(fields: seq<string>)
    requires forall i :: 0 <= i < |fields| ==> fields[i] != []
    ensures Group(fields) == Grouping([], fields)
  {
    if fields != [] {
      GroupRun(fields[..|fields| - 1]);
      assert fields == fields[..|fields| - 1] + [fields[|fields| - 1]];
    }
  }

  lemma {:induction false} GroupRest(fields: seq<string>, rest: seq<string>)
    requires forall i :: 0 <= i < |fields| ==> fields[i] != []
    ensures Group(fields + [""] + rest)
      == Grouping((if fields == [] then [] else [fields]) + Group(rest).events, Group(rest).cur)
    decreases |rest|
  {
    hide Group;
    if rest == [] {
      GroupRun(fields);
      GroupSnoc(fields, "");
      NoGroups();
      assert fields + [""] + rest == fields + [""];
    } else {
      var front, last := rest[..|rest| - 1], rest[|rest| - 1];
      assert rest == front + [last];
      assert fields + [""] + rest == (fields + [""] + front) + [last];
      GroupRest(fields, front);
      GroupSnoc(fields + [""] + front, last);
      GroupSnoc(front, last);
      assert ((if fields == [] then [] else [fields]) + Group(front).events) + [Group(front).cur]
        == (if fields == [] then [] else [fields]) + (Group(front).events + [Group(front).cur]);
    }
  }

  /** An event is a run of non-empty lines up to an empty line or the end of the stream. */
  lemma {:induction false} EventsEnd(fields: seq<string>, rest: seq<string>)
    requires forall i :: 0 <= i < |fields| ==> fields[i] != []
    ensures Closed(Group(fields + [""] + rest)) == (if fields == [] then [] else [fields]) + Closed(Group(rest))
    ensures Closed(Group(fields)) == if fields == [] then [] else [fields]
  {
    hide Group;
    GroupRun(fields);
    GroupRest(fields, rest);
    assert [] + [fields] == [fields];
  }

  /** A field behind a colon and at most one space, or with an empty value where there is no colon. */
  ghost predicate Spells(line: string, name: string, value: string) {
    && name != [] && ':' !in name && (value == [] || value[0] != ' ')
    && (line == name + ":" + value || line == name + ": " + value || (line == name && value == []))
  }

  /** Data gathers, the last type, id and retry win; any other field and a comment change nothing. */
  lemma {:induction false} FieldIs(e: Event, name: string, value: string, line: string)
    requires Spells(line, name, value)
    ensures name == "data" ==> ReadField(e, line) == e.(data := Some((if e.data.Some? then e.data.value else []) + [value]))
    ensures name == "event" ==> ReadField(e, line) == e.(kind := value, typed := true)
    ensures name == "id" ==> ReadField(e, line) == e.(id := Some(value))
    ensures name == "retry" ==> ReadField(e, line) == e.(retry := Some(value))
    ensures name !in {"data", "event", "id", "retry"} ==> ReadField(e, line) == e
  {
    hide Colon, ValueOf;
    FieldParts(name, value);
  }

  lemma {:induction false} CommentIs(e: Event, text: string)
    ensures ReadField(e, ":" + text) == e
  {
    hide Colon, ValueOf;
    assert (":" + text)[0] == ':';
  }

  lemma {:induction false} FieldParts(name: string, value: string)
    requires name != [] && ':' !in name && (value == [] || value[0] != ' ')
    ensures forall line :: line in {name + ":" + value, name + ": " + value} ==>
      line != [] && line[0] != ':' && line[..Colon(line)] == name && ValueOf(line) == value
    ensures forall line :: line in {name, name + ":"} ==>
      line != [] && line[0] != ':' && line[..Colon(line)] == name && ValueOf(line) == []
  {
    hide Colon;
    assert name[0] in name;
    ColonAfter(name, value);
    ColonAfter(name, " " + value);
    ColonAfter(name, "");
    NoColon(name);
    var a, b, c := name + ":" + value, name + ": " + value, name + ":";
    assert b == name + ":" + (" " + value) && c == name + ":" + "";
    assert a[|name| + 1..] == value && b[|name| + 2..] == value && c[|name| + 1..] == [];
    assert a[..|name|] == name && b[..|name|] == name && c[..|name|] == name && name[..|name|] == name;
    assert a[0] == name[0] && b[0] == name[0] && c[0] == name[0];
    assert |name| + 1 < |a| ==> a[|name| + 1] == value[0];
  }

  lemma {:induction false} NoColon(name: string)
    requires ':' !in name
    ensures Colon(name) == |name|
  {
    if name != [] {
      assert name[0] in name;
      NoColon(name[1..]);
    }
  }

  // ---- what is kept of an event -------------------------------------------------------------------

  datatype Content = Priming | Payload(p: Json)

  datatype Keep = Keep(typed: bool, id: Option<string>, retry: Option<string>, data: Option<Content>)

  predicate SafeId(s: string) {
    1 <= |s| <= 128 && forall i :: 0 <= i < |s| ==> '!' <= s[i] <= '~'
  }

  predicate SafeRetry(s: string) {
    1 <= |s| <= 10 && forall i :: 0 <= i < |s| ==> '0' <= s[i] <= '9'
  }

  function KeepIf(s: Option<string>, safe: bool): Option<string> {
    if safe then s else None
  }

  /** None when the event is dropped: another type, an answer to another request, or nothing left to write. */
  function KeepOf(g: Gateway, e: Event, id: Json): Option<Keep> {
    if e.kind != "message" then None
    else
      var eid := KeepIf(e.id, e.id.Some? && SafeId(e.id.value));
      var retry := KeepIf(e.retry, e.retry.Some? && SafeRetry(e.retry.value));
      if e.data.None? then
        if e.typed || eid.Some? || retry.Some? then Some(Keep(e.typed, eid, retry, None)) else None
      else
        var joined := Join(e.data.value);
        if Blank(joined) then Some(Keep(e.typed, eid, retry, Some(Priming)))
        else
          match EventPayload(g, joined, id)
          case None => None
          case Some(p) => Some(Keep(e.typed, eid, retry, Some(Payload(p))))
  }

  function KeepAll(g: Gateway, events: seq<Event>, id: Json): seq<Keep> {
    if events == [] then []
    else
      var front, last := KeepAll(g, events[..|events| - 1], id), KeepOf(g, events[|events| - 1], id);
      if last.Some? then front + [last.value] else front
  }

  function Data(g: Gateway, c: Content): string {
    if c.Priming? then "" else g.dumps(c.p)
  }

  function TypeLine(k: Keep): seq<string> {
    if k.typed then ["event: message"] else []
  }

  function IdLine(k: Keep): seq<string> {
    if k.id.Some? then ["id: " + k.id.value] else []
  }

  function RetryLine(k: Keep): seq<string> {
    if k.retry.Some? then ["retry: " + k.retry.value] else []
  }

  function DataLine(g: Gateway, k: Keep): seq<string> {
    if k.data.Some? then ["data: " + Data(g, k.data.value)] else []
  }

  function FieldLines(g: Gateway, k: Keep): seq<string> {
    TypeLine(k) + IdLine(k) + RetryLine(k) + DataLine(g, k)
  }

  function Written(g: Gateway, k: Keep): string {
    Join(FieldLines(g, k)) + [NL, NL]
  }

  function WriteAll(g: Gateway, ks: seq<Keep>): string {
    if ks == [] then [] else WriteAll(g, ks[..|ks| - 1]) + Written(g, ks[|ks| - 1])
  }

  function Filtered(g: Gateway, text: string, id: Json): string {
    WriteAll(g, KeepAll(g, Parse(text), id))
  }

  /** The event a client reads where `k` was written. */
  function AsEvent(g: Gateway, k: Keep): Event {
    Event("message", k.typed, k.id, k.retry, if k.data.Some? then Some([Data(g, k.data.value)]) else None)
  }

  function AsEvents(g: Gateway, ks: seq<Keep>): seq<Event> {
    if ks == [] then [] else AsEvents(g, ks[..|ks| - 1]) + [AsEvent(g, ks[|ks| - 1])]
  }

  // ---- the filter as it runs ----------------------------------------------------------------------

  method FilterStream(g: Gateway, raw: string, id: Json) returns (out: string)
    ensures out == Filtered(g, raw, id)
  {
    hide SplitEol, Group, ReadFields, ReadAll, KeepAll, WriteAll, Written;
    var text := raw;
    if text != [] && text[0] == BOM {
      text := text[1..];
    }
    var lines := SplitEol(text);
    var events := CutEvents(lines);
    out := [];
    assert events[..0] == [];
    NothingYet(g, id);
    for i := 0 to |events|
      invariant out == WriteAll(g, KeepAll(g, ReadAll(events[..i]), id))
    {
      assert events[..i + 1] == events[..i] + [events[i]];
      EventSnoc(g, events[..i], events[i], id);
      var e := ReadEvent(events[i]);
      if e.kind != "message" {
        continue;
      }
      var keep := Keep(e.typed, None, None, None);
      if e.id.Some? && SafeId(e.id.value) {
        keep := keep.(id := e.id);
      }
      if e.retry.Some? && SafeRetry(e.retry.value) {
        keep := keep.(retry := e.retry);
      }
      if e.data.Some? {
        var joined := Join(e.data.value);
        if Blank(joined) {
          keep := keep.(data := Some(Priming));
        } else {
          var p := EventPayload(g, joined, id);
          if p.None? {
            continue;
          }
          keep := keep.(data := Some(Payload(p.value)));
        }
      }
      if keep.typed || keep.id.Some? || keep.retry.Some? || keep.data.Some? {
        out := out + Written(g, keep);
      }
    }
    assert events[..|events|] == events;
  }

  lemma {:induction false} NothingYet(g: Gateway, id: Json)
    ensures ReadAll([]) == [] && KeepAll(g, [], id) == [] && WriteAll(g, []) == []
  {
  }

  lemma {:induction false} EventSnoc(g: Gateway, events: seq<seq<string>>, last: seq<string>, id: Json)
    ensures var kept, k := KeepAll(g, ReadAll(events), id), KeepOf(g, ReadFields(last), id);
      && ReadAll(events + [last]) == ReadAll(events) + [ReadFields(last)]
      && KeepAll(g, ReadAll(events + [last]), id) == (if k.Some? then kept + [k.value] else kept)
      && WriteAll(g, KeepAll(g, ReadAll(events + [last]), id))
         == WriteAll(g, kept) + (if k.Some? then Written(g, k.value) else [])
  {
    hide KeepOf, ReadFields, Written;
    assert (events + [last])[..|events|] == events;
    var rs, r := ReadAll(events), ReadFields(last);
    assert (rs + [r])[..|rs|] == rs;
    var kept := KeepAll(g, rs, id);
    var k := KeepOf(g, r, id);
    if k.Some? {
      assert (kept + [k.value])[..|kept|] == kept;
    }
  }

  method CutEvents(lines: seq<string>) returns (events: seq<seq<string>>)
    ensures events == Closed(Group(lines))
  {
    hide Group;
    events := [];
    var cur: seq<string> := [];
    assert lines[..0] == [] && Group([]) == Grouping([], []) by {
      NoGroups();
    }
    for i := 0 to |lines|
      invariant Grouping(events, cur) == Group(lines[..i])
    {
      GroupSnoc(lines[..i], lines[i]);
      assert lines[..i + 1] == lines[..i] + [lines[i]];
      if lines[i] == [] {
        if cur != [] {
          events := events + [cur];
        }
        cur := [];
      } else {
        cur := cur + [lines[i]];
      }
    }
    assert lines[..|lines|] == lines;
    if cur != [] {
      events := events + [cur];
    }
  }

  lemma {:induction false} NoGroups()
    ensures Group([]) == Grouping([], [])
  {
  }

  lemma {:induction false} GroupSnoc(lines: seq<string>, line: string)
    ensures Group(lines + [line]) == GroupStep(Group(lines), line)
  {
    assert (lines + [line])[..|lines|] == lines;
  }

  method ReadEvent(lines: seq<string>) returns (e: Event)
    ensures e == ReadFields(lines)
  {
    hide ReadFields, Colon;
    e := NO_FIELDS;
    assert lines[..0] == [] && ReadFields([]) == NO_FIELDS by {
      NoFieldsRead();
    }
    for i := 0 to |lines|
      invariant e == ReadFields(lines[..i])
    {
      var line := lines[i];
      ReadSnoc(lines[..i], line);
      assert lines[..i + 1] == lines[..i] + [line];
      if line != [] && line[0] == ':' {
        continue;
      }
      var name, value := line[..Colon(line)], ValueOf(line);
      if name == "data" {
        e := e.(data := Some((if e.data.Some? then e.data.value else []) + [value]));
      } else if name == "event" {
        e := e.(kind := value, typed := true);
      } else if name == "id" {
        e := e.(id := Some(value));
      } else if name == "retry" {
        e := e.(retry := Some(value));
      }
    }
    assert lines[..|lines|] == lines;
  }

  lemma {:induction false} NoFieldsRead()
    ensures ReadFields([]) == NO_FIELDS
  {
  }

  lemma {:induction false} ReadSnoc(lines: seq<string>, line: string)
    ensures ReadFields(lines + [line]) == ReadField(ReadFields(lines), line)
  {
    hide ReadField;
    assert (lines + [line])[..|lines|] == lines;
  }

  // ---- round trip -----------------------------------------------------------------------------------

  /** A line of text ended by LF is one line. */
  lemma {:induction false} SplitLine(line: string, rest: string)
    requires NoBreak(line)
    ensures SplitEol(line + [NL] + rest) == [line] + SplitEol(rest)
  {
    var s := line + [NL] + rest;
    if line == [] {
      assert s[1..] == rest;
    } else {
      SplitLine(line[1..], rest);
      assert s[1..] == line[1..] + [NL] + rest;
      var more := SplitEol(s[1..]);
      assert more[0] == line[1..] && more[1..] == SplitEol(rest);
      assert line == [line[0]] + line[1..];
      assert s[0] == line[0] && line[0] in line;
    }
  }

  ghost predicate Fit(lines: seq<string>) {
    forall i :: 0 <= i < |lines| ==> lines[i] != [] && NoBreak(lines[i])
  }

  /** The lines joined by LF, ended by LF, then whatever follows. */
  lemma {:induction false} SplitJoined(lines: seq<string>, rest: string)
    requires lines != [] && Fit(lines)
    ensures SplitEol(Join(lines) + [NL] + rest) == lines + SplitEol(rest)
    decreases |lines|
  {
    hide SplitEol, NoBreak;
    var front, last := lines[..|lines| - 1], lines[|lines| - 1];
    assert lines == front + [last];
    SplitLine(last, rest);
    if front == [] {
      assert Join(lines) == last;
    } else {
      SplitJoined(front, last + [NL] + rest);
      JoinSnoc(front, last);
      assert Join(lines) + [NL] + rest == Join(front) + [NL] + (last + [NL] + rest);
      assert front + ([last] + SplitEol(rest)) == lines + SplitEol(rest);
    }
  }

  function LinesOf(g: Gateway, ks: seq<Keep>): seq<string> {
    if ks == [] then [] else LinesOf(g, ks[..|ks| - 1]) + (FieldLines(g, ks[|ks| - 1]) + [[]])
  }

  /** Something is kept, and each part of it can be written on a line. */
  ghost predicate Writable(g: Gateway, k: Keep) {
    && (k.typed || k.id.Some? || k.retry.Some? || k.data.Some?)
    && (k.id.Some? ==> SafeId(k.id.value))
    && (k.retry.Some? ==> SafeRetry(k.retry.value))
    && (k.data.Some? ==> NoBreak(Data(g, k.data.value)))
  }

  ghost predicate AllWritable(g: Gateway, ks: seq<Keep>) {
    forall i :: 0 <= i < |ks| ==> Writable(g, ks[i])
  }

  lemma {:induction false} FieldLinesFit(g: Gateway, k: Keep)
    requires Writable(g, k)
    ensures FieldLines(g, k) != [] && Fit(FieldLines(g, k))
  {
    hide Fit, NoBreak, SafeId, SafeRetry;
    NoLinesFit();
    if k.typed {
      LineFits("event: message", "");
      assert "event: message" + "" == "event: message";
    }
    if k.id.Some? {
      SafeIsUnbroken(k.id.value);
      LineFits("id: ", k.id.value);
    }
    if k.retry.Some? {
      SafeIsUnbroken(k.retry.value);
      LineFits("retry: ", k.retry.value);
    }
    if k.data.Some? {
      LineFits("data: ", Data(g, k.data.value));
    }
    FitJoin(TypeLine(k), IdLine(k));
    FitJoin(TypeLine(k) + IdLine(k), RetryLine(k));
    FitJoin(TypeLine(k) + IdLine(k) + RetryLine(k), DataLine(g, k));
  }

  lemma {:induction false} NoLinesFit()
    ensures Fit([]) && NoBreak("")
  {
  }

  lemma {:induction false} SafeIsUnbroken(s: string)
    ensures SafeId(s) || SafeRetry(s) ==> NoBreak(s)
  {
  }

  lemma {:induction false} LineFits(name: string, value: string)
    requires name in {"event: message", "id: ", "retry: ", "data: "} && NoBreak(value)
    ensures Fit([name + value])
  {
    assert NoBreak(name);
  }

  lemma {:induction false} FitJoin(a: seq<string>, b: seq<string>)
    requires Fit(a) && Fit(b)
    ensures Fit(a + b)
  {
  }

  lemma {:induction false} SplitWritten(g: Gateway, ks: seq<Keep>, rest: string)
    requires AllWritable(g, ks)
    ensures SplitEol(WriteAll(g, ks) + rest) == LinesOf(g, ks) + SplitEol(rest)
    decreases |ks|
  {
    hide SplitEol, FieldLines, Writable, Join;
    if ks == [] {
      assert WriteAll(g, ks) + rest == rest;
    } else {
      var front, k := ks[..|ks| - 1], ks[|ks| - 1];
      SplitWritten(g, front, Written(g, k) + rest);
      assert WriteAll(g, ks) + rest == WriteAll(g, front) + (Written(g, k) + rest);
      FieldLinesFit(g, k);
      var fields := FieldLines(g, k);
      SplitJoined(fields, [NL] + rest);
      assert Written(g, k) + rest == Join(fields) + [NL] + ([NL] + rest);
      NoBreakNothing();
      SplitLine([], rest);
      assert [] + [NL] + rest == [NL] + rest;
      assert LinesOf(g, front) + (fields + ([[]] + SplitEol(rest))) == LinesOf(g, ks) + SplitEol(rest);
    }
  }

  lemma {:induction false} NoBreakNothing()
    ensures NoBreak([])
  {
  }

  lemma {:induction false} GroupFields(lines: seq<string>, fields: seq<string>)
    requires Fit(fields)
    ensures Group(lines + fields) == Group(lines).(cur := Group(lines).cur + fields)
    decreases |fields|
  {
    if fields == [] {
      assert lines + fields == lines;
    } else {
      hide Group, NoBreak;
      var front, last := fields[..|fields| - 1], fields[|fields| - 1];
      assert fields == front + [last];
      GroupFields(lines, front);
      assert lines + fields == (lines + front) + [last];
      GroupSnoc(lines + front, last);
    }
  }

  function AllFields(g: Gateway, ks: seq<Keep>): seq<seq<string>> {
    if ks == [] then [] else AllFields(g, ks[..|ks| - 1]) + [FieldLines(g, ks[|ks| - 1])]
  }

  /** Each kept event comes back as one group of lines. */
  lemma {:induction false} GroupWritten(g: Gateway, ks: seq<Keep>)
    requires AllWritable(g, ks)
    ensures Group(LinesOf(g, ks)) == Grouping(AllFields(g, ks), [])
    decreases |ks|
  {
    hide Group, FieldLines, Writable;
    if ks == [] {
      NoGroups();
    } else {
      var front, k := ks[..|ks| - 1], ks[|ks| - 1];
      var fields := FieldLines(g, k);
      GroupWritten(g, front);
      FieldLinesFit(g, k);
      GroupFields(LinesOf(g, front), fields);
      assert [] + fields == fields;
      GroupSnoc(LinesOf(g, front) + fields, []);
      assert LinesOf(g, ks) == LinesOf(g, front) + fields + [[]];
    }
  }

  lemma {:induction false} ColonAfter(name: string, rest: string)
    requires ':' !in name
    ensures Colon(name + ":" + rest) == |name|
  {
    var line := name + ":" + rest;
    if name != [] {
      ColonAfter(name[1..], rest);
      assert line[1..] == name[1..] + ":" + rest;
      assert line[0] == name[0] && name[0] in name;
    }
  }

  lemma {:induction false} FieldRead(e: Event, name: string, value: string)
    requires name != [] && ':' !in name
    ensures var line := name + ": " + value;
      line[0] != ':' && line[..Colon(line)] == name && ValueOf(line) == value
  {
    hide Colon;
    var line := name + ": " + value;
    ColonAfter(name, " " + value);
    assert line == name + ":" + (" " + value);
    assert line[0] == name[0] && name[0] in name;
    assert line[|name| + 2..] == value;
  }

  /** The lines written for a kept event read back as that event. */
  lemma {:induction false} FieldsReadBack(g: Gateway, k: Keep)
    ensures ReadFields(FieldLines(g, k)) == AsEvent(g, k)
  {
    hide ReadFields, Colon, ValueOf;
    var a, b, c := TypeLine(k), IdLine(k), RetryLine(k);
    NoFieldsRead();
    ReadType(k);
    ReadId(a, k);
    ReadRetry(a + b, k);
    ReadData(g, a + b + c, k);
  }

  lemma {:induction false} ReadType(k: Keep)
    ensures ReadFields(TypeLine(k)) == NO_FIELDS.(typed := k.typed)
  {
    hide ReadFields, Colon, ValueOf;
    NoFieldsRead();
    if k.typed {
      FieldRead(NO_FIELDS, "event", "message");
      assert "event" + ": " + "message" == "event: message";
      ReadSnoc([], "event: message");
      assert [] + ["event: message"] == ["event: message"];
    }
  }

  lemma {:induction false} ReadId(lines: seq<string>, k: Keep)
    ensures ReadFields(lines + IdLine(k)) == if k.id.Some? then ReadFields(lines).(id := k.id) else ReadFields(lines)
  {
    hide ReadFields, Colon, ValueOf;
    if k.id.Some? {
      FieldRead(ReadFields(lines), "id", k.id.value);
      assert "id" + ": " + k.id.value == "id: " + k.id.value;
      ReadSnoc(lines, "id: " + k.id.value);
    } else {
      assert lines + IdLine(k) == lines;
    }
  }

  lemma {:induction false} ReadRetry(lines: seq<string>, k: Keep)
    ensures ReadFields(lines + RetryLine(k))
      == if k.retry.Some? then ReadFields(lines).(retry := k.retry) else ReadFields(lines)
  {
    hide ReadFields, Colon, ValueOf;
    if k.retry.Some? {
      FieldRead(ReadFields(lines), "retry", k.retry.value);
      assert "retry" + ": " + k.retry.value == "retry: " + k.retry.value;
      ReadSnoc(lines, "retry: " + k.retry.value);
    } else {
      assert lines + RetryLine(k) == lines;
    }
  }

  lemma {:induction false} ReadData(g: Gateway, lines: seq<string>, k: Keep)
    requires ReadFields(lines).data.None?
    ensures ReadFields(lines + DataLine(g, k))
      == if k.data.Some? then ReadFields(lines).(data := Some([Data(g, k.data.value)])) else ReadFields(lines)
  {
    hide ReadFields, Colon, ValueOf;
    if k.data.Some? {
      var d := Data(g, k.data.value);
      FieldRead(ReadFields(lines), "data", d);
      assert "data" + ": " + d == "data: " + d;
      ReadSnoc(lines, "data: " + d);
      assert [] + [d] == [d];
    } else {
      assert lines + DataLine(g, k) == lines;
    }
  }

  lemma {:induction false} AllReadBack(g: Gateway, ks: seq<Keep>)
    ensures ReadAll(AllFields(g, ks)) == AsEvents(g, ks)
  {
    if ks != [] {
      hide FieldLines, ReadFields;
      var front, k := ks[..|ks| - 1], ks[|ks| - 1];
      AllReadBack(g, front);
      FieldsReadBack(g, k);
      var fs, f := AllFields(g, front), FieldLines(g, k);
      assert (fs + [f])[..|fs|] == fs;
    }
  }

  /** The written text starts with a field name. */
  lemma {:induction false} NoBomWritten(g: Gateway, ks: seq<Keep>)
    requires AllWritable(g, ks)
    ensures WithoutBom(WriteAll(g, ks)) == WriteAll(g, ks)
    ensures ks != [] ==> WriteAll(g, ks) != [] && WriteAll(g, ks)[0] in {'e', 'i', 'r', 'd'}
  {
    if ks != [] {
      hide Join, Writable, FieldLines;
      var front, k := ks[..|ks| - 1], ks[|ks| - 1];
      NoBomWritten(g, front);
      FirstWritten(g, k);
      var a, b := WriteAll(g, front), Written(g, k);
      assert (a + b)[0] == if a == [] then b[0] else a[0];
    }
  }

  lemma {:induction false} FirstWritten(g: Gateway, k: Keep)
    requires Writable(g, k)
    ensures Written(g, k)[0] in {'e', 'i', 'r', 'd'}
  {
    hide Join, NoBreak;
    FieldLinesFit(g, k);
    JoinStarts(FieldLines(g, k));
    var l := FieldLines(g, k)[0];
    assert l[0] in {'e', 'i', 'r', 'd'};
  }

  lemma {:induction false} JoinStarts(lines: seq<string>)
    requires lines != [] && lines[0] != []
    ensures Join(lines) != [] && Join(lines)[0] == lines[0][0]
  {
    if |lines| > 1 {
      JoinStarts(lines[..|lines| - 1]);
    }
  }

  /** Whatever is kept, writing it and parsing it again gives it back. */
  lemma {:induction false} ParseWritten(g: Gateway, ks: seq<Keep>)
    requires AllWritable(g, ks)
    ensures Parse(WriteAll(g, ks)) == AsEvents(g, ks)
  {
    hide SplitEol, Group, WriteAll, Writable, ReadAll, LinesOf, AllFields, AsEvents;
    var text := WriteAll(g, ks);
    NoBomWritten(g, ks);
    SplitWritten(g, ks, []);
    assert text + [] == text;
    assert SplitEol([]) == [[]] by {
      SplitNothing();
    }
    GroupWritten(g, ks);
    GroupSnoc(LinesOf(g, ks), []);
    AllReadBack(g, ks);
  }

  lemma {:induction false} SplitNothing()
    ensures SplitEol([]) == [[]]
  {
  }

  // ---- the theorems ---------------------------------------------------------------------------------

  /** What the gateway lets through for one event: safe framing and a sound payload. */
  ghost predicate Safe(g: Gateway, k: Keep, id: Json) {
    && (k.typed || k.id.Some? || k.retry.Some? || k.data.Some?)
    && (k.id.Some? ==> SafeId(k.id.value))
    && (k.retry.Some? ==> SafeRetry(k.retry.value))
    && (k.data.Some? && k.data.value.Payload? ==> Sound(g, k.data.value.p, id))
  }

  lemma {:induction false} KeepIsSafe(g: Gateway, e: Event, id: Json)
    requires g.same(id, id) && KeepOf(g, e, id).Some?
    ensures Safe(g, KeepOf(g, e, id).value, id)
  {
    hide Join, Answer, Sound, SafeId, SafeRetry, ClosedToolsList, Strip;
    ClosedIsSound(g, id);
    if e.data.Some? {
      var read := g.loads(Join(e.data.value));
      if read.Some? && Answer(g, read.value, id).Some? {
        AnswerIsSound(g, read.value, id);
      }
    }
  }

  lemma {:induction false} AllKeptSafe(g: Gateway, events: seq<Event>, id: Json)
    requires g.same(id, id)
    ensures forall i :: 0 <= i < |KeepAll(g, events, id)| ==> Safe(g, KeepAll(g, events, id)[i], id)
  {
    if events != [] {
      hide KeepOf, Safe;
      AllKeptSafe(g, events[..|events| - 1], id);
      var e := events[|events| - 1];
      if KeepOf(g, e, id).Some? {
        KeepIsSafe(g, e, id);
      }
    }
  }

  lemma {:induction false} SafeIsWritable(g: Gateway, k: Keep, id: Json)
    requires g.Lawful() && Safe(g, k, id)
    ensures Writable(g, k)
  {
    hide Sound, Blank;
    if k.data.Some? && k.data.value.Payload? {
      assert g.Printed(k.data.value.p);
    }
  }

  lemma {:induction false} KeptIsWritable(g: Gateway, text: string, id: Json)
    requires g.Lawful()
    ensures AllWritable(g, KeepAll(g, Parse(text), id))
  {
    hide Parse, KeepAll, Safe, Writable;
    assert g.same(id, id);
    AllKeptSafe(g, Parse(text), id);
    var ks := KeepAll(g, Parse(text), id);
    forall i | 0 <= i < |ks| ensures Writable(g, ks[i]) {
      SafeIsWritable(g, ks[i], id);
    }
  }

  /** Parsing the output gives exactly the kept events, and each of them is safe to send. */
  lemma {:induction false} OutputIsTheKeptEvents(g: Gateway, text: string, id: Json)
    requires g.Lawful()
    ensures var ks := KeepAll(g, Parse(text), id);
      && Parse(Filtered(g, text, id)) == AsEvents(g, ks)
      && forall i :: 0 <= i < |ks| ==> Safe(g, ks[i], id)
  {
    hide Parse, KeepAll, WriteAll, Writable, Safe, AsEvents;
    assert g.same(id, id);
    AllKeptSafe(g, Parse(text), id);
    KeptIsWritable(g, text, id);
    ParseWritten(g, KeepAll(g, Parse(text), id));
  }

  lemma {:induction false} BlankNothing()
    ensures Blank([])
  {
  }

  /** A safe event is kept as it is when it is read again. */
  lemma {:induction false} SafeIsKept(g: Gateway, k: Keep, id: Json)
    requires g.Lawful() && Safe(g, k, id)
    ensures KeepOf(g, AsEvent(g, k), id) == Some(k)
  {
    hide Answer, Sound, SafeId, SafeRetry, Blank, Safe;
    assert (k.typed || k.id.Some? || k.retry.Some? || k.data.Some?)
           && (k.id.Some? ==> SafeId(k.id.value)) && (k.retry.Some? ==> SafeRetry(k.retry.value))
           && (k.data.Some? && k.data.value.Payload? ==> Sound(g, k.data.value.p, id)) by {
      SafeMeans(g, k, id);
    }
    if k.data.Some? {
      var d := Data(g, k.data.value);
      assert Join([d]) == d;
      BlankNothing();
      if k.data.value.Payload? {
        assert g.Printed(k.data.value.p);
        SoundPasses(g, k.data.value.p, id);
      }
    }
  }

  lemma {:induction false} SafeMeans(g: Gateway, k: Keep, id: Json)
    requires Safe(g, k, id)
    ensures k.typed || k.id.Some? || k.retry.Some? || k.data.Some?
    ensures (k.id.Some? ==> SafeId(k.id.value)) && (k.retry.Some? ==> SafeRetry(k.retry.value))
    ensures k.data.Some? && k.data.value.Payload? ==> Sound(g, k.data.value.p, id)
  {
    hide Sound, SafeId, SafeRetry;
  }

  lemma {:induction false} AllKeptAgain(g: Gateway, ks: seq<Keep>, id: Json)
    requires g.Lawful() && forall i :: 0 <= i < |ks| ==> Safe(g, ks[i], id)
    ensures KeepAll(g, AsEvents(g, ks), id) == ks
  {
    if ks != [] {
      hide KeepOf, Safe, AsEvent;
      var front, k := ks[..|ks| - 1], ks[|ks| - 1];
      AllKeptAgain(g, front, id);
      SafeIsKept(g, k, id);
      var es, e := AsEvents(g, front), AsEvent(g, k);
      assert (es + [e])[..|es|] == es;
      assert ks == front + [k];
    }
  }

  // ---- what becomes of each event -----------------------------------------------------------------

  ghost predicate IsSafeId(s: Option<string>) {
    s.Some? && 0 < |s.value| < 129 && forall i :: 0 <= i < |s.value| ==> 33 <= s.value[i] as int <= 126
  }

  ghost predicate IsSafeRetry(s: Option<string>) {
    s.Some? && 0 < |s.value| < 11 && forall i :: 0 <= i < |s.value| ==> 48 <= s.value[i] as int <= 57
  }

  ghost predicate NoData(e: Event) {
    e.data.None?
  }

  ghost predicate BlankData(e: Event) {
    e.data.Some? && Blank(Join(e.data.value))
  }

  /** The data is an answer to another request. */
  ghost predicate ForeignData(g: Gateway, e: Event, id: Json) {
    e.data.Some? && !BlankData(e)
    && g.loads(Join(e.data.value)).Some? && Foreign(g, g.loads(Join(e.data.value)).value, id)
  }

  /** An event goes out: it is a message, is no answer to another request, and has something to write. */
  ghost predicate GoesOut(g: Gateway, e: Event, id: Json) {
    && e.kind == "message" && !ForeignData(g, e, id)
    && (NoData(e) ==> e.typed || IsSafeId(e.id) || IsSafeRetry(e.retry))
  }

  /** How it goes out. */
  ghost predicate GoesOutAs(g: Gateway, e: Event, id: Json, k: Keep, at: seq<int>) {
    && k.typed == e.typed && k.id == (if IsSafeId(e.id) then e.id else None)
    && k.retry == (if IsSafeRetry(e.retry) then e.retry else None)
    && (NoData(e) <==> k.data.None?) && (BlankData(e) <==> k.data == Some(Priming))
    && (k.data.Some? && k.data.value.Payload? ==> Replies(g, Join(e.data.value), id, Some(k.data.value.p), at))
  }

  /** Which events go out, and as what. */
  lemma {:induction false} EventGoesOutIff(g: Gateway, e: Event, id: Json) returns (at: seq<int>)
    ensures KeepOf(g, e, id).Some? <==> GoesOut(g, e, id)
    ensures GoesOut(g, e, id) ==> GoesOutAs(g, e, id, KeepOf(g, e, id).value, at)
  {
    hide Join, Blank, Trimmed, Refused, EventPayload, Foreign, ClosedToolsList;
    at := [];
    if e.data.Some? {
      at := ReplyIs(g, Join(e.data.value), id);
    }
  }

  /** The events go out in order, each once, and no other: `from` says where they stood. */
  lemma {:induction false} EventsGoOut(
    g: Gateway, events: seq<Event>, id: Json) returns (from: seq<int>, at: seq<seq<int>>)
    ensures var ks := KeepAll(g, events, id);
      && |from| == |at| == |ks|
      && (forall k :: 0 <= k < |ks| ==> 0 <= from[k] < |events| && GoesOutAs(g, events[from[k]], id, ks[k], at[k]))
      && (forall k, l :: 0 <= k < l < |ks| ==> from[k] < from[l])
      && forall i :: 0 <= i < |events| ==> (i in from <==> GoesOut(g, events[i], id))
  {
    from, at := [], [];
    if events != [] {
      hide KeepOf, GoesOut, GoesOutAs;
      var front, last := events[..|events| - 1], events[|events| - 1];
      from, at := EventsGoOut(g, front, id);
      assert forall i :: 0 <= i < |front| ==> events[i] == front[i];
      var how := EventGoesOutIff(g, last, id);
      assert |front| !in from;
      if KeepOf(g, last, id).Some? {
        from, at := from + [|front|], at + [how];
      }
    }
  }

  /** A stream of safe events passes as it is. */
  lemma {:induction false} SafeStreamPasses(g: Gateway, ks: seq<Keep>, id: Json)
    requires g.Lawful() && forall i :: 0 <= i < |ks| ==> Safe(g, ks[i], id)
    ensures Filtered(g, WriteAll(g, ks), id) == WriteAll(g, ks)
  {
    hide Parse, KeepAll, WriteAll, Safe, AsEvents, Writable;
    forall i | 0 <= i < |ks| ensures Writable(g, ks[i]) {
      SafeIsWritable(g, ks[i], id);
    }
    ParseWritten(g, ks);
    AllKeptAgain(g, ks, id);
  }

  /** Filtering what was filtered changes nothing. */
  lemma {:induction false} FilteringTwiceIsOnce(g: Gateway, text: string, id: Json)
    requires g.Lawful()
    ensures Filtered(g, Filtered(g, text, id), id) == Filtered(g, text, id)
  {
    hide Parse, KeepAll, WriteAll, Safe, AsEvents;
    OutputIsTheKeptEvents(g, text, id);
    AllKeptAgain(g, KeepAll(g, Parse(text), id), id);
  }
}
