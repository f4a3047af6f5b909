/** The JSON status report, rendered piece by piece into one buffer. */
module StatusReport {
  import opened Decimal
  import opened Json
  import opened Wrappers

  datatype System = System(
    loadValid: bool, load1: nat, load5: nat, load15: nat,
    memValid: bool, memFreeKb: nat, memAvailableKb: nat, memTotalKb: nat)

  datatype Motion = Motion(detected: bool, hour: int, min: int, sec: int)

  datatype Mqtt = Mqtt(
    connected: bool, brokerIp: string, port: int, keepAlive: int, lastLoopRc: int, lastLoopRcStr: string,
    connectAttempts: nat, connects: nat, disconnects: nat, publishes: nat, publishedMotions: nat,
    publishesDropped: nat, publishCallbacks: nat, messages: nat, ticks: nat)

  datatype DictionaryStatus = DictionaryStatus(ticks: nat, entriesAdded: nat, entriesRemoved: nat, entriesExpired: nat)

  datatype Snapshot = Snapshot(
    webHandlerAvailable: bool, handlerHits: seq<(string, nat)>,
    motion: Motion, lightValue: nat, displayMode: string, displayDimmed: bool, ledStripMode: string,
    mqtt: Mqtt, dictionaryStatus: DictionaryStatus, dictionarySize: nat, dictionaryEntries: seq<(string, string)>,
    system: System)

  /** The (int) cast of a counter: its low 32 bits, signed. */
  function ToInt(v: nat): (r: int)
    ensures -0x8000_0000 <= r < 0x8000_0000 && (v - r) % 0x1_0000_0000 == 0
  {
    var low := v % 0x1_0000_0000;
    if low < 0x8000_0000 then low else low - 0x1_0000_0000
  }

  // ---------------------------------------------------------------- the document

  function IntDoc(n: int): Doc { DNumber(IntText(n)) }

  const LEAD1 := "\n  "
  const LEAD2 := "\n    "
  const LEAD3 := "\n      "

  function LoadDoc(s: System): Doc {
    if s.loadValid then
      DObject([Item("", "1min", DNumber(Load(s.load1))),
               Item(" ", "5min", DNumber(Load(s.load5))),
               Item(" ", "15min", DNumber(Load(s.load15)))], "")
    else DNull
  }

  function MemDoc(s: System, kb: nat): Doc { if s.memValid then DNumber(Dec(kb)) else DNull }

  function SystemDoc(s: System): Doc {
    DObject([Item(LEAD2, "cpu_load", LoadDoc(s)),
             Item(LEAD2, "mem_free_kb", MemDoc(s, s.memFreeKb)),
             Item(LEAD2, "mem_available_kb", MemDoc(s, s.memAvailableKb)),
             Item(LEAD2, "mem_total_kb", MemDoc(s, s.memTotalKb))], LEAD1)
  }

  function MotionDoc(m: Motion): Doc {
    DObject([Item(LEAD2, "detected", DBool(m.detected)),
             Item(LEAD2, "last_change_hour", IntDoc(m.hour)),
             Item(LEAD2, "last_change_min", IntDoc(m.min)),
             Item(LEAD2, "last_change_sec", IntDoc(m.sec))], LEAD1)
  }

  function DisplayDoc(mode: string, dimmed: bool): Doc {
    DObject([Item("", "mode", DStr(mode)), Item(" ", "dimmed", DBool(dimmed))], "")
  }

  function LedStripDoc(mode: string): Doc { DObject([Item("", "mode", DStr(mode))], "") }

  function MqttHead(m: Mqtt): seq<Item> {
    [Item(LEAD2, "broker_connected", DBool(m.connected)),
     Item(LEAD2, "broker_ip", DStr(m.brokerIp)),
     Item(LEAD2, "broker_port", IntDoc(m.port)),
     Item(LEAD2, "keep_alive_secs", IntDoc(m.keepAlive)),
     Item(LEAD2, "last_loop_rc", IntDoc(m.lastLoopRc)),
     Item(LEAD2, "last_loop_rc_str", DStr(m.lastLoopRcStr))]
  }

  const COUNTER_NAMES: seq<string> :=
    ["connect_attempts", "connects", "disconnects", "publishes", "published_motions",
     "publishes_dropped", "publish_callbacks", "messages", "ticks"]

  function CounterValues(m: Mqtt): (v: seq<nat>)
    ensures |v| == |COUNTER_NAMES|
  {
    [m.connectAttempts, m.connects, m.disconnects, m.publishes, m.publishedMotions,
     m.publishesDropped, m.publishCallbacks, m.messages, m.ticks]
  }

  /** The first n of a list of named counters. */
  function CounterItems(names: seq<string>, values: seq<nat>, n: nat): seq<Item>
    requires n <= |names| == |values|
  {
    if n == 0 then [] else CounterItems(names, values, n - 1) + [Item(LEAD2, names[n - 1], IntDoc(ToInt(values[n - 1])))]
  }

  function MqttDoc(m: Mqtt): Doc {
    DObject(MqttHead(m) + CounterItems(COUNTER_NAMES, CounterValues(m), |COUNTER_NAMES|), LEAD1)
  }

  function PairItems(pairs: seq<(string, string)>): seq<Item> {
    if pairs == [] then []
    else PairItems(pairs[..|pairs| - 1]) + [Item(LEAD3, pairs[|pairs| - 1].0, DStr(pairs[|pairs| - 1].1))]
  }

  function EntriesDoc(pairs: seq<(string, string)>): Doc {
    DObject(PairItems(pairs), if pairs == [] then "" else LEAD2)
  }

  function DictionaryCounters(s: Snapshot): seq<Item> {
    [Item(LEAD2, "size", IntDoc(ToInt(s.dictionarySize))),
     Item(LEAD2, "ticks", IntDoc(ToInt(s.dictionaryStatus.ticks))),
     Item(LEAD2, "adds", IntDoc(ToInt(s.dictionaryStatus.entriesAdded))),
     Item(LEAD2, "removes", IntDoc(ToInt(s.dictionaryStatus.entriesRemoved))),
     Item(LEAD2, "expires", IntDoc(ToInt(s.dictionaryStatus.entriesExpired)))]
  }

  function DictionaryDoc(s: Snapshot): Doc {
    DObject(DictionaryCounters(s) + [Item(LEAD2, "entries", EntriesDoc(s.dictionaryEntries))], LEAD1)
  }

  function HitItems(hits: seq<(string, nat)>): seq<Item> {
    if hits == [] then []
    else HitItems(hits[..|hits| - 1]) + [Item(LEAD2, hits[|hits| - 1].0, IntDoc(ToInt(hits[|hits| - 1].1)))]
  }

  function HitsDoc(hits: seq<(string, nat)>): Doc {
    DObject(HitItems(hits), if hits == [] then "" else LEAD1)
  }

  function HandlersDoc(s: Snapshot): Doc {
    var hits := if s.webHandlerAvailable then s.handlerHits else [];
    DObject([Item("", "hits", HitsDoc(hits))], "")
  }

  function MachineItems(s: Snapshot): seq<Item> {
    [Item(LEAD1, "version", IntDoc(1)),
     Item(LEAD1, "system", SystemDoc(s.system)),
     Item(LEAD1, "motion", MotionDoc(s.motion)),
     Item(LEAD1, "light_sensor", IntDoc(ToInt(s.lightValue)))]
  }

  function ServiceItems(s: Snapshot): seq<Item> {
    [Item(LEAD1, "display", DisplayDoc(s.displayMode, s.displayDimmed)),
     Item(LEAD1, "led_strip", LedStripDoc(s.ledStripMode)),
     Item(LEAD1, "mqtt", MqttDoc(s.mqtt)),
     Item(LEAD1, "dictionary", DictionaryDoc(s)),
     Item(LEAD1, "handlers", HandlersDoc(s))]
  }

  function StatusDoc(s: Snapshot): Doc { DObject(MachineItems(s) + ServiceItems(s), "\n") }

  // ---------------------------------------------------------------- the printer

  predicate PlainChar(c: char) { c >= ' ' && c != '"' && c != '\\' }

  /** A name that needs no escapes. */
  predicate Plain(s: string) { forall k :: 0 <= k < |s| ==> PlainChar(s[k]) }

  lemma {:induction false} PlainIsItself(s: string)
    requires Plain(s)
    ensures Escape(s) == s
  {
    if s != [] {
      PlainIsItself(s[1..]);
      assert EscapeChar(s[0]) == [s[0]];
    }
  }

  lemma {:induction false} ItemsSnoc(items: seq<Item>, item: Item)
    ensures ItemsText(items + [item]) ==
            ItemsText(items) + (if items == [] then [] else [',']) + (KeyText(item.lead, item.key) + Text(item.value))
    decreases |items|
  {
    if items == [] {
      assert items + [item] == [item];
    } else if |items| == 1 {
      assert (items + [item])[1..] == [item];
    } else {
      assert (items + [item])[1..] == items[1..] + [item];
      ItemsSnoc(items[1..], item);
    }
  }

  function Comma(first: bool): string { if first then [] else [','] }

  lemma Regroup(base: string, items: string, comma: string, key: string, text: string)
    ensures base + items + comma + key + text == base + (items + comma + (key + text))
  {
  }

  /** A key, written with the comma that its place calls for. */
  method AppendKey(buff: string, first: bool, lead: string, name: string) returns (r: string)
    requires Plain(name)
    ensures r == buff + Comma(first) + KeyText(lead, name)
  {
    PlainIsItself(name);
    r := buff + Comma(first) + (lead + ['"'] + name + ['"'] + [':', ' ']);
  }

  /** A member with a value that is one piece of text, after the items so far. */
  method AppendItem(buff: string, lead: string, name: string, text: string, first: bool,
                    ghost base: string, ghost items: seq<Item>, ghost value: Doc) returns (r: string)
    requires Plain(name) && text == Text(value) && first == (items == [])
    requires buff == base + ItemsText(items)
    ensures r == base + ItemsText(items + [Item(lead, name, value)])
  {
    r := AppendKey(buff, first, lead, name);
    r := r + text;
    ItemsSnoc(items, Item(lead, name, value));
    Regroup(base, ItemsText(items), Comma(first), KeyText(lead, name), text);
  }

  method AppendInt(buff: string, lead: string, name: string, n: int, first: bool, ghost base: string, ghost items: seq<Item>) returns (r: string)
    requires Plain(name) && first == (items == []) && buff == base + ItemsText(items)
    ensures r == base + ItemsText(items + [Item(lead, name, IntDoc(n))])
  {
    r := AppendItem(buff, lead, name, IntText(n), first, base, items, IntDoc(n));
  }

  method AppendBool(buff: string, lead: string, name: string, b: bool, first: bool, ghost base: string, ghost items: seq<Item>) returns (r: string)
    requires Plain(name) && first == (items == []) && buff == base + ItemsText(items)
    ensures r == base + ItemsText(items + [Item(lead, name, DBool(b))])
  {
    r := AppendItem(buff, lead, name, if b then "true" else "false", first, base, items, DBool(b));
  }

  method AppendString(buff: string, lead: string, name: string, value: string, first: bool, ghost base: string, ghost items: seq<Item>) returns (r: string)
    requires Plain(name) && first == (items == []) && buff == base + ItemsText(items)
    ensures r == base + ItemsText(items + [Item(lead, name, DStr(value))])
  {
    var text := JsonString(value);
    r := AppendItem(buff, lead, name, text, first, base, items, DStr(value));
  }

  method AppendLoad(buff: string, lead: string, name: string, hundredths: nat, first: bool, ghost base: string, ghost items: seq<Item>) returns (r: string)
    requires Plain(name) && first == (items == []) && buff == base + ItemsText(items)
    ensures r == base + ItemsText(items + [Item(lead, name, DNumber(Load(hundredths)))])
  {
    r := AppendItem(buff, lead, name, Load(hundredths), first, base, items, DNumber(Load(hundredths)));
  }

  method AppendNull(buff: string, lead: string, name: string, first: bool, ghost base: string, ghost items: seq<Item>) returns (r: string)
    requires Plain(name) && first == (items == []) && buff == base + ItemsText(items)
    ensures r == base + ItemsText(items + [Item(lead, name, DNull)])
  {
    r := AppendItem(buff, lead, name, "null", first, base, items, DNull);
  }

  lemma NoItemsYet(base: string)
    ensures base == base + ItemsText([])
  {
  }

  /** A member whose key is escaped too. */
  method AppendEscaped(buff: string, lead: string, name: string, text: string, first: bool,
                       ghost base: string, ghost items: seq<Item>, ghost value: Doc) returns (r: string)
    requires text == Text(value) && first == (items == [])
    requires buff == base + ItemsText(items)
    ensures r == base + ItemsText(items + [Item(lead, name, value)])
  {
    var escaped := JsonEscape(name);
    r := buff + Comma(first) + (lead + (['"'] + escaped + ['"']) + [':', ' ']) + text;
    ItemsSnoc(items, Item(lead, name, value));
    Regroup(base, ItemsText(items), Comma(first), KeyText(lead, name), text);
  }

  method JsonString(value: string) returns (r: string)
    ensures r == Text(DStr(value))
  {
    var escaped := JsonEscape(value);
    r := ['"'] + escaped + ['"'];
  }

  /** The text up to the opening brace of a member that is an object. */
  function Opened(base: string, items: seq<Item>, lead: string, name: string): string {
    base + ItemsText(items) + Comma(items == []) + KeyText(lead, name) + ['{']
  }

  method OpenObject(buff: string, lead: string, name: string, first: bool, ghost base: string, ghost items: seq<Item>) returns (r: string)
    requires Plain(name) && first == (items == [])
    requires buff == base + ItemsText(items)
    ensures r == Opened(base, items, lead, name)
  {
    r := AppendKey(buff, first, lead, name);
    r := r + ['{'];
  }

  method CloseObject(buff: string, close: string,
                     ghost base: string, ghost items: seq<Item>, ghost lead: string, ghost name: string, ghost inner: seq<Item>) returns (r: string)
    requires buff == Opened(base, items, lead, name) + ItemsText(inner)
    ensures r == base + ItemsText(items + [Item(lead, name, DObject(inner, close))])
  {
    r := buff + close + ['}'];
    Closed(base, items, lead, name, inner, close);
  }

  lemma Closed(base: string, items: seq<Item>, lead: string, name: string, inner: seq<Item>, close: string)
    ensures Opened(base, items, lead, name) + ItemsText(inner) + close + ['}'] ==
            base + ItemsText(items + [Item(lead, name, DObject(inner, close))])
  {
    var front, text := base + ItemsText(items) + Comma(items == []) + KeyText(lead, name), Text(DObject(inner, close));
    RegroupObject(front, ItemsText(inner), close);
    ItemsSnoc(items, Item(lead, name, DObject(inner, close)));
    Regroup(base, ItemsText(items), Comma(items == []), KeyText(lead, name), text);
  }

  lemma RegroupObject(front: string, inner: string, close: string)
    ensures front + ['{'] + inner + close + ['}'] == front + (['{'] + inner + close + ['}'])
  {
  }

  method RenderCpuLoad(buff: string, s: System, ghost base: string) returns (r: string)
    requires buff == base + ItemsText([])
    ensures r == base + ItemsText([Item(LEAD2, "cpu_load", LoadDoc(s))])
  {
    hide Escape, EscapeChar, ItemsText, Text, Quoted, KeyText, IntText, IntDoc;
    if s.loadValid {
      r := OpenObject(buff, LEAD2, "cpu_load", true, base, []);
      ghost var inner, from := [], r;
      NoItemsYet(from);
      r := AppendLoad(r, "", "1min", s.load1, true, from, inner);
      inner := inner + [Item("", "1min", DNumber(Load(s.load1)))];
      r := AppendLoad(r, " ", "5min", s.load5, false, from, inner);
      inner := inner + [Item(" ", "5min", DNumber(Load(s.load5)))];
      r := AppendLoad(r, " ", "15min", s.load15, false, from, inner);
      inner := inner + [Item(" ", "15min", DNumber(Load(s.load15)))];
      r := CloseObject(r, "", base, [], LEAD2, "cpu_load", inner);
      assert DObject(inner, "") == LoadDoc(s) && [] + [Item(LEAD2, "cpu_load", LoadDoc(s))] == [Item(LEAD2, "cpu_load", LoadDoc(s))];
    } else {
      r := AppendNull(buff, LEAD2, "cpu_load", true, base, []);
      assert [] + [Item(LEAD2, "cpu_load", DNull)] == [Item(LEAD2, "cpu_load", LoadDoc(s))];
    }
  }

  method MemText(s: System, kb: nat) returns (r: string)
    ensures r == Text(MemDoc(s, kb))
  {
    r := if s.memValid then Dec(kb) else "null";
  }

  method RenderSystem(buff: string, s: System, ghost base: string, ghost items: seq<Item>) returns (r: string)
    requires buff == base + ItemsText(items) && items != []
    ensures r == base + ItemsText(items + [Item(LEAD1, "system", SystemDoc(s))])
  {
    hide Escape, EscapeChar, ItemsText, Text, Quoted, KeyText, IntText, IntDoc;
    r := OpenObject(buff, LEAD1, "system", false, base, items);
    ghost var inner, from := [Item(LEAD2, "cpu_load", LoadDoc(s))], r;
    NoItemsYet(from);
    r := RenderCpuLoad(r, s, from);
    var memNames := ["mem_free_kb", "mem_available_kb", "mem_total_kb"];
    var memValues := [s.memFreeKb, s.memAvailableKb, s.memTotalKb];
    for i := 0 to 3
      invariant |inner| == i + 1 && inner[0] == Item(LEAD2, "cpu_load", LoadDoc(s))
      invariant forall k :: 1 <= k <= i ==> inner[k] == Item(LEAD2, memNames[k - 1], MemDoc(s, memValues[k - 1]))
      invariant r == from + ItemsText(inner)
    {
      var text := MemText(s, memValues[i]);
      r := AppendItem(r, LEAD2, memNames[i], text, false, from, inner, MemDoc(s, memValues[i]));
      inner := inner + [Item(LEAD2, memNames[i], MemDoc(s, memValues[i]))];
    }
    r := CloseObject(r, LEAD1, base, items, LEAD1, "system", inner);
    assert inner[1] == Item(LEAD2, "mem_free_kb", MemDoc(s, s.memFreeKb));
    assert inner[2] == Item(LEAD2, "mem_available_kb", MemDoc(s, s.memAvailableKb));
    assert inner[3] == Item(LEAD2, "mem_total_kb", MemDoc(s, s.memTotalKb));
    assert inner == [inner[0], inner[1], inner[2], inner[3]];
    assert DObject(inner, LEAD1) == SystemDoc(s);
  }

  method RenderMotion(buff: string, m: Motion, ghost base: string, ghost items: seq<Item>) returns (r: string)
    requires buff == base + ItemsText(items) && items != []
    ensures r == base + ItemsText(items + [Item(LEAD1, "motion", MotionDoc(m))])
  {
    hide Escape, EscapeChar, ItemsText, Text, Quoted, KeyText, IntText, IntDoc;
    r := OpenObject(buff, LEAD1, "motion", false, base, items);
    ghost var inner, from := [], r;
    NoItemsYet(from);
    r := AppendBool(r, LEAD2, "detected", m.detected, true, from, inner);
    inner := inner + [Item(LEAD2, "detected", DBool(m.detected))];
    r := AppendInt(r, LEAD2, "last_change_hour", m.hour, false, from, inner);
    inner := inner + [Item(LEAD2, "last_change_hour", IntDoc(m.hour))];
    r := AppendInt(r, LEAD2, "last_change_min", m.min, false, from, inner);
    inner := inner + [Item(LEAD2, "last_change_min", IntDoc(m.min))];
    r := AppendInt(r, LEAD2, "last_change_sec", m.sec, false, from, inner);
    inner := inner + [Item(LEAD2, "last_change_sec", IntDoc(m.sec))];
    r := CloseObject(r, LEAD1, base, items, LEAD1, "motion", inner);
    assert DObject(inner, LEAD1) == MotionDoc(m);
  }

  method RenderDisplay(buff: string, mode: string, dimmed: bool, ghost base: string, ghost items: seq<Item>) returns (r: string)
    requires buff == base + ItemsText(items) && items != []
    ensures r == base + ItemsText(items + [Item(LEAD1, "display", DisplayDoc(mode, dimmed))])
  {
    hide Escape, EscapeChar, ItemsText, Text, Quoted, KeyText, IntText, IntDoc;
    r := OpenObject(buff, LEAD1, "display", false, base, items);
    ghost var inner, from := [], r;
    NoItemsYet(from);
    r := AppendString(r, "", "mode", mode, true, from, inner);
    inner := inner + [Item("", "mode", DStr(mode))];
    r := AppendBool(r, " ", "dimmed", dimmed, false, from, inner);
    inner := inner + [Item(" ", "dimmed", DBool(dimmed))];
    r := CloseObject(r, "", base, items, LEAD1, "display", inner);
    assert DObject(inner, "") == DisplayDoc(mode, dimmed);
  }

  method RenderLedStrip(buff: string, mode: string, ghost base: string, ghost items: seq<Item>) returns (r: string)
    requires buff == base + ItemsText(items) && items != []
    ensures r == base + ItemsText(items + [Item(LEAD1, "led_strip", LedStripDoc(mode))])
  {
    hide Escape, EscapeChar, ItemsText, Text, Quoted, KeyText, IntText, IntDoc;
    r := OpenObject(buff, LEAD1, "led_strip", false, base, items);
    ghost var from := r;
    NoItemsYet(from);
    r := AppendString(r, "", "mode", mode, true, from, []);
    r := CloseObject(r, "", base, items, LEAD1, "led_strip", [] + [Item("", "mode", DStr(mode))]);
    assert DObject([] + [Item("", "mode", DStr(mode))], "") == LedStripDoc(mode);
  }

  method RenderMqttHead(buff: string, m: Mqtt, ghost base: string) returns (r: string)
    requires buff == base + ItemsText([])
    ensures r == base + ItemsText(MqttHead(m))
  {
    hide Escape, EscapeChar, ItemsText, Text, Quoted, KeyText, IntText, IntDoc;
    ghost var items := [];
    r := AppendBool(buff, LEAD2, "broker_connected", m.connected, true, base, items);
    items := items + [Item(LEAD2, "broker_connected", DBool(m.connected))];
    r := AppendString(r, LEAD2, "broker_ip", m.brokerIp, false, base, items);
    items := items + [Item(LEAD2, "broker_ip", DStr(m.brokerIp))];
    r := AppendInt(r, LEAD2, "broker_port", m.port, false, base, items);
    items := items + [Item(LEAD2, "broker_port", IntDoc(m.port))];
    r := AppendInt(r, LEAD2, "keep_alive_secs", m.keepAlive, false, base, items);
    items := items + [Item(LEAD2, "keep_alive_secs", IntDoc(m.keepAlive))];
    r := AppendInt(r, LEAD2, "last_loop_rc", m.lastLoopRc, false, base, items);
    items := items + [Item(LEAD2, "last_loop_rc", IntDoc(m.lastLoopRc))];
    r := AppendString(r, LEAD2, "last_loop_rc_str", m.lastLoopRcStr, false, base, items);
    items := items + [Item(LEAD2, "last_loop_rc_str", DStr(m.lastLoopRcStr))];
    assert items == MqttHead(m);
  }

  method RenderCounters(buff: string, names: seq<string>, values: seq<nat>, ghost base: string, ghost items: seq<Item>) returns (r: string)
    requires |names| == |values| && items != []
    requires forall k :: 0 <= k < |names| ==> Plain(names[k])
    requires buff == base + ItemsText(items)
    ensures r == base + ItemsText(items + CounterItems(names, values, |names|))
  {
    hide Escape, EscapeChar, ItemsText, Text, Quoted, KeyText, IntText, IntDoc, ToInt, Plain;
    r := buff;
    assert items + [] == items;
    for i := 0 to |names|
      invariant r == base + ItemsText(items + CounterItems(names, values, i))
    {
      r := AppendInt(r, LEAD2, names[i], ToInt(values[i]), false, base, items + CounterItems(names, values, i));
      assert items + CounterItems(names, values, i + 1) ==
             items + CounterItems(names, values, i) + [Item(LEAD2, names[i], IntDoc(ToInt(values[i])))];
    }
  }

  lemma CounterNamesArePlain()
    ensures forall k :: 0 <= k < |COUNTER_NAMES| ==> Plain(COUNTER_NAMES[k])
  {
    assert Plain("connect_attempts") && Plain("connects") && Plain("disconnects") && Plain("publishes");
    assert Plain("published_motions") && Plain("publishes_dropped") && Plain("publish_callbacks");
    assert Plain("messages") && Plain("ticks");
  }

  method RenderMqtt(buff: string, m: Mqtt, ghost base: string, ghost items: seq<Item>) returns (r: string)
    requires buff == base + ItemsText(items) && items != []
    ensures r == base + ItemsText(items + [Item(LEAD1, "mqtt", MqttDoc(m))])
  {
    hide Escape, EscapeChar, ItemsText, Text, Quoted, KeyText, IntText, IntDoc;
    r := OpenObject(buff, LEAD1, "mqtt", false, base, items);
    ghost var from := r;
    NoItemsYet(from);
    r := RenderMqttHead(r, m, from);
    CounterNamesArePlain();
    r := RenderCounters(r, COUNTER_NAMES, CounterValues(m), from, MqttHead(m));
    r := CloseObject(r, LEAD1, base, items, LEAD1, "mqtt", MqttHead(m) + CounterItems(COUNTER_NAMES, CounterValues(m), |COUNTER_NAMES|));
  }

  /** renderJsonPairs, the loop. */
  method RenderPairs(buff: string, pairs: seq<(string, string)>, ghost base: string) returns (r: string)
    requires buff == base + ItemsText([])
    ensures r == base + ItemsText(PairItems(pairs))
  {
    r := buff;
    for i := 0 to |pairs|
      invariant r == base + ItemsText(PairItems(pairs[..i])) && |PairItems(pairs[..i])| == i
    {
      var text := JsonString(pairs[i].1);
      r := AppendEscaped(r, LEAD3, pairs[i].0, text, i == 0, base, PairItems(pairs[..i]), DStr(pairs[i].1));
      assert pairs[..i + 1][..i] == pairs[..i];
    }
    assert pairs[..|pairs|] == pairs;
  }

  method RenderEntries(buff: string, pairs: seq<(string, string)>, ghost base: string, ghost items: seq<Item>) returns (r: string)
    requires buff == base + ItemsText(items) && items != []
    ensures r == base + ItemsText(items + [Item(LEAD2, "entries", EntriesDoc(pairs))])
  {
    hide Escape, EscapeChar, ItemsText, Text, Quoted, KeyText, IntText, IntDoc;
    r := OpenObject(buff, LEAD2, "entries", false, base, items);
    ghost var from := r;
    NoItemsYet(from);
    r := RenderPairs(r, pairs, from);
    r := CloseObject(r, if pairs == [] then "" else LEAD2, base, items, LEAD2, "entries", PairItems(pairs));
  }

  method RenderDictionaryCounters(buff: string, s: Snapshot, ghost base: string) returns (r: string)
    requires buff == base + ItemsText([])
    ensures r == base + ItemsText(DictionaryCounters(s))
  {
    hide Escape, EscapeChar, ItemsText, Text, Quoted, KeyText, IntText, IntDoc;
    ghost var items := [];
    var size, status := ToInt(s.dictionarySize), s.dictionaryStatus;
    r := AppendInt(buff, LEAD2, "size", size, true, base, items);
    items := items + [Item(LEAD2, "size", IntDoc(size))];
    r := AppendInt(r, LEAD2, "ticks", ToInt(status.ticks), false, base, items);
    items := items + [Item(LEAD2, "ticks", IntDoc(ToInt(status.ticks)))];
    r := AppendInt(r, LEAD2, "adds", ToInt(status.entriesAdded), false, base, items);
    items := items + [Item(LEAD2, "adds", IntDoc(ToInt(status.entriesAdded)))];
    r := AppendInt(r, LEAD2, "removes", ToInt(status.entriesRemoved), false, base, items);
    items := items + [Item(LEAD2, "removes", IntDoc(ToInt(status.entriesRemoved)))];
    r := AppendInt(r, LEAD2, "expires", ToInt(status.entriesExpired), false, base, items);
    items := items + [Item(LEAD2, "expires", IntDoc(ToInt(status.entriesExpired)))];
    assert items == DictionaryCounters(s);
  }

  method RenderDictionary(buff: string, s: Snapshot, ghost base: string, ghost items: seq<Item>) returns (r: string)
    requires buff == base + ItemsText(items) && items != []
    ensures r == base + ItemsText(items + [Item(LEAD1, "dictionary", DictionaryDoc(s))])
  {
    hide Escape, EscapeChar, ItemsText, Text, Quoted, KeyText, IntText, IntDoc;
    r := OpenObject(buff, LEAD1, "dictionary", false, base, items);
    ghost var from := r;
    NoItemsYet(from);
    r := RenderDictionaryCounters(r, s, from);
    r := RenderEntries(r, s.dictionaryEntries, from, DictionaryCounters(s));
    ghost var inner := DictionaryCounters(s) + [Item(LEAD2, "entries", EntriesDoc(s.dictionaryEntries))];
    r := CloseObject(r, LEAD1, base, items, LEAD1, "dictionary", inner);
  }

  method RenderHitItems(buff: string, hits: seq<(string, nat)>, ghost base: string) returns (r: string)
    requires buff == base + ItemsText([])
    ensures r == base + ItemsText(HitItems(hits))
  {
    r := buff;
    for i := 0 to |hits|
      invariant r == base + ItemsText(HitItems(hits[..i])) && |HitItems(hits[..i])| == i
    {
      var n := ToInt(hits[i].1);
      r := AppendEscaped(r, LEAD2, hits[i].0, IntText(n), i == 0, base, HitItems(hits[..i]), IntDoc(n));
      assert hits[..i + 1][..i] == hits[..i];
    }
    assert hits[..|hits|] == hits;
  }

  method RenderHits(buff: string, hits: seq<(string, nat)>, ghost base: string) returns (r: string)
    requires buff == base + ItemsText([])
    ensures r == base + ItemsText([Item("", "hits", HitsDoc(hits))])
  {
    hide Escape, EscapeChar, ItemsText, Text, Quoted, KeyText, HitItems;
    r := OpenObject(buff, "", "hits", true, base, []);
    ghost var from := r;
    NoItemsYet(from);
    r := RenderHitItems(r, hits, from);
    r := CloseObject(r, if hits == [] then "" else LEAD1, base, [], "", "hits", HitItems(hits));
    assert [] + [Item("", "hits", HitsDoc(hits))] == [Item("", "hits", HitsDoc(hits))];
  }

  method RenderHandlers(buff: string, s: Snapshot, ghost base: string, ghost items: seq<Item>) returns (r: string)
    requires buff == base + ItemsText(items) && items != []
    ensures r == base + ItemsText(items + [Item(LEAD1, "handlers", HandlersDoc(s))])
  {
    hide Escape, EscapeChar, ItemsText, Text, Quoted, KeyText, IntText, IntDoc;
    r := OpenObject(buff, LEAD1, "handlers", false, base, items);
    ghost var from := r;
    NoItemsYet(from);
    var hits := if s.webHandlerAvailable then s.handlerHits else [];
    r := RenderHits(r, hits, from);
    r := CloseObject(r, "", base, items, LEAD1, "handlers", [Item("", "hits", HitsDoc(hits))]);
  }

  method RenderMachine(buff: string, s: Snapshot, ghost base: string) returns (r: string)
    requires buff == base + ItemsText([])
    ensures r == base + ItemsText(MachineItems(s))
  {
    hide Escape, EscapeChar, ItemsText, Text, Quoted, KeyText, SystemDoc, MotionDoc;
    ghost var items := [];
    r := AppendInt(buff, LEAD1, "version", 1, true, base, items);
    items := items + [Item(LEAD1, "version", IntDoc(1))];
    r := RenderSystem(r, s.system, base, items);
    items := items + [Item(LEAD1, "system", SystemDoc(s.system))];
    r := RenderMotion(r, s.motion, base, items);
    items := items + [Item(LEAD1, "motion", MotionDoc(s.motion))];
    r := AppendInt(r, LEAD1, "light_sensor", ToInt(s.lightValue), false, base, items);
    items := items + [Item(LEAD1, "light_sensor", IntDoc(ToInt(s.lightValue)))];
    assert items == MachineItems(s);
  }

  method RenderServices(buff: string, s: Snapshot, ghost base: string, ghost before: seq<Item>) returns (r: string)
    requires buff == base + ItemsText(before) && before != []
    ensures r == base + ItemsText(before + ServiceItems(s))
  {
    hide Escape, EscapeChar, ItemsText, Text, Quoted, KeyText, DisplayDoc, LedStripDoc, MqttDoc, DictionaryDoc, HandlersDoc;
    ghost var items := before;
    r := RenderDisplay(buff, s.displayMode, s.displayDimmed, base, items);
    items := items + [Item(LEAD1, "display", DisplayDoc(s.displayMode, s.displayDimmed))];
    r := RenderLedStrip(r, s.ledStripMode, base, items);
    items := items + [Item(LEAD1, "led_strip", LedStripDoc(s.ledStripMode))];
    r := RenderMqtt(r, s.mqtt, base, items);
    items := items + [Item(LEAD1, "mqtt", MqttDoc(s.mqtt))];
    r := RenderDictionary(r, s, base, items);
    items := items + [Item(LEAD1, "dictionary", DictionaryDoc(s))];
    r := RenderHandlers(r, s, base, items);
    items := items + [Item(LEAD1, "handlers", HandlersDoc(s))];
    assert items == before + ServiceItems(s);
  }

  /** renderStatusJson. Line ends are written with the member that follows them. */
  method RenderStatusJson(s: Snapshot) returns (buff: string)
    ensures buff == Text(StatusDoc(s)) + ['\n']
  {
    hide Escape, EscapeChar, ItemsText, Quoted, KeyText, MachineItems, ServiceItems;
    buff := ['{'];
    ghost var base := buff;
    NoItemsYet(base);
    buff := RenderMachine(buff, s, base);
    SomeItems(s);
    buff := RenderServices(buff, s, base, MachineItems(s));
    buff := buff + ['\n'] + ['}'] + ['\n'];
  }

  lemma SomeItems(s: Snapshot)
    ensures MachineItems(s) != []
  {
  }

  // ---------------------------------------------------------------- what a reader gets

  lemma CounterItemsSpaced(names: seq<string>, values: seq<nat>, n: nat)
    requires n <= |names| == |values|
    ensures |CounterItems(names, values, n)| == n
    ensures forall k :: 0 <= k < n ==> Spaces(CounterItems(names, values, n)[k].lead) && Spaced(CounterItems(names, values, n)[k].value)
  {
    if n > 0 {
      hide IntText, ToInt, Numeral;
      CounterItemsSpaced(names, values, n - 1);
      IntIsNumeral(ToInt(values[n - 1]));
    }
  }

  lemma HitItemsSpaced(hits: seq<(string, nat)>)
    ensures forall k :: 0 <= k < |HitItems(hits)| ==> Spaces(HitItems(hits)[k].lead) && Spaced(HitItems(hits)[k].value)
  {
    if hits != [] {
      HitItemsSpaced(hits[..|hits| - 1]);
      IntIsNumeral(ToInt(hits[|hits| - 1].1));
    }
  }

  lemma PairItemsSpaced(pairs: seq<(string, string)>)
    ensures forall k :: 0 <= k < |PairItems(pairs)| ==> Spaces(PairItems(pairs)[k].lead) && Spaced(PairItems(pairs)[k].value)
  {
  }

  lemma SystemSpaced(s: System)
    ensures Spaced(SystemDoc(s))
  {
    LoadIsNumeral(s.load1);
    LoadIsNumeral(s.load5);
    LoadIsNumeral(s.load15);
    DecIsNumeral(s.memFreeKb);
    DecIsNumeral(s.memAvailableKb);
    DecIsNumeral(s.memTotalKb);
    assert Spaced(LoadDoc(s));
  }

  lemma MotionSpaced(m: Motion)
    ensures Spaced(MotionDoc(m))
  {
    IntIsNumeral(m.hour);
    IntIsNumeral(m.min);
    IntIsNumeral(m.sec);
  }

  lemma MqttSpaced(m: Mqtt)
    ensures Spaced(MqttDoc(m))
  {
    IntIsNumeral(m.port);
    IntIsNumeral(m.keepAlive);
    IntIsNumeral(m.lastLoopRc);
    CounterItemsSpaced(COUNTER_NAMES, CounterValues(m), |COUNTER_NAMES|);
  }

  lemma DictionarySpaced(s: Snapshot)
    ensures Spaced(DictionaryDoc(s))
  {
    hide Numeral, IntText, ToInt, DictionaryCounters, EntriesDoc;
    DictionaryCountersSpaced(s);
    EntriesSpaced(s.dictionaryEntries);
  }

  lemma DictionaryCountersSpaced(s: Snapshot)
    ensures AllSpaced(DictionaryCounters(s))
  {
    hide Numeral, IntText, ToInt;
    IntIsNumeral(ToInt(s.dictionarySize));
    IntIsNumeral(ToInt(s.dictionaryStatus.ticks));
    IntIsNumeral(ToInt(s.dictionaryStatus.entriesAdded));
    IntIsNumeral(ToInt(s.dictionaryStatus.entriesRemoved));
    IntIsNumeral(ToInt(s.dictionaryStatus.entriesExpired));
  }

  lemma EntriesSpaced(pairs: seq<(string, string)>)
    ensures Spaced(EntriesDoc(pairs))
  {
    PairItemsSpaced(pairs);
  }

  lemma HandlersSpaced(s: Snapshot)
    ensures Spaced(HandlersDoc(s))
  {
    HitItemsSpaced(if s.webHandlerAvailable then s.handlerHits else []);
  }

  ghost predicate AllSpaced(items: seq<Item>) {
    forall k :: 0 <= k < |items| ==> Spaces(items[k].lead) && Spaced(items[k].value)
  }

  lemma MachineSpaced(s: Snapshot)
    ensures AllSpaced(MachineItems(s))
  {
    hide Numeral, SystemDoc, MotionDoc;
    IntIsNumeral(1);
    IntIsNumeral(ToInt(s.lightValue));
    SystemSpaced(s.system);
    MotionSpaced(s.motion);
  }

  lemma ModesSpaced(s: Snapshot)
    ensures Spaced(DisplayDoc(s.displayMode, s.displayDimmed)) && Spaced(LedStripDoc(s.ledStripMode))
  {
  }

  lemma ServicesSpaced(s: Snapshot)
    ensures AllSpaced(ServiceItems(s))
  {
    hide Spaced, DisplayDoc, LedStripDoc, MqttDoc, DictionaryDoc, HandlersDoc;
    ModesSpaced(s);
    MqttSpaced(s.mqtt);
    DictionarySpaced(s);
    HandlersSpaced(s);
  }

  lemma StatusSpaced(s: Snapshot)
    ensures Spaced(StatusDoc(s))
  {
    hide MachineItems, ServiceItems;
    MachineSpaced(s);
    ServicesSpaced(s);
  }

  /** The members that the pairs of the dictionary are to be read back as. */
  function StringMembers(pairs: seq<(string, string)>): (r: seq<Member>)
    ensures |r| == |pairs| && forall k :: 0 <= k < |pairs| ==> r[k] == Member(pairs[k].0, Str(pairs[k].1))
  {
    seq(|pairs|, k requires 0 <= k < |pairs| => Member(pairs[k].0, Str(pairs[k].1)))
  }

  lemma {:induction false} MembersAppend(a: seq<Item>, b: seq<Item>)
    ensures Members(a + b) == Members(a) + Members(b)
    decreases |a|
  {
    if a == [] {
      assert a + b == b;
    } else {
      assert (a + b)[1..] == a[1..] + b;
      MembersAppend(a[1..], b);
    }
  }

  lemma {:induction false} PairsMean(pairs: seq<(string, string)>)
    ensures Members(PairItems(pairs)) == StringMembers(pairs)
  {
    if pairs != [] {
      var front, last := pairs[..|pairs| - 1], pairs[|pairs| - 1];
      PairsMean(front);
      var item := Item(LEAD3, last.0, DStr(last.1));
      MembersAppend(PairItems(front), [item]);
      assert Members([item]) == [Member(last.0, Str(last.1))];
    }
  }

  /** The member of an object that is read under a key; the last one, if it is repeated. */
  function Lookup(j: Json, key: string): Option<Json> {
    if j.Object? then LookupIn(j.members, key) else None
  }

  function LookupIn(members: seq<Member>, key: string): Option<Json> {
    if members == [] then None
    else if members[|members| - 1].key == key then Some(members[|members| - 1].value)
    else LookupIn(members[..|members| - 1], key)
  }

  lemma {:induction false} FoundIn(members: seq<Member>, k: nat)
    requires k < |members| && forall j :: k < j < |members| ==> members[j].key != members[k].key
    ensures LookupIn(members, members[k].key) == Some(members[k].value)
  {
    if k < |members| - 1 {
      FoundIn(members[..|members| - 1], k);
    }
  }

  lemma {:induction false} MemberAt(items: seq<Item>, k: nat)
    requires k < |items|
    ensures Members(items)[k] == Member(items[k].key, Meaning(items[k].value))
  {
    if k > 0 {
      MemberAt(items[1..], k - 1);
    }
  }

  /** A reader finds a printed member under its key, if no later one has the same key. */
  lemma MemberFound(items: seq<Item>, close: string, k: nat)
    requires k < |items| && forall j :: k < j < |items| ==> items[j].key != items[k].key
    ensures Lookup(Meaning(DObject(items, close)), items[k].key) == Some(Meaning(items[k].value))
  {
    hide Meaning;
    forall j | 0 <= j < |items|
      ensures Members(items)[j] == Member(items[j].key, Meaning(items[j].value))
    {
      MemberAt(items, j);
    }
    FoundIn(Members(items), k);
    ObjectMeaning(items, close);
  }

  lemma ObjectMeaning(items: seq<Item>, close: string)
    ensures Meaning(DObject(items, close)) == Object(Members(items))
  {
  }

  /** Can the keys be told apart by their length, or by one of a few characters? */
  predicate Apart(a: string, b: string) {
    || |a| != |b|
    || (|a| > 0 && a[0] != b[0]) || (|a| > 1 && a[1] != b[1])
    || (|a| > 7 && a[7] != b[7]) || (|a| > 8 && a[8] != b[8])
  }

  lemma ApartFound(items: seq<Item>, close: string, k: nat)
    requires k < |items| && forall j :: k < j < |items| ==> Apart(items[j].key, items[k].key)
    ensures Lookup(Meaning(DObject(items, close)), items[k].key) == Some(Meaning(items[k].value))
  {
    hide Lookup, Meaning;
    MemberFound(items, close, k);
  }

  /** The top level of the report, member by member. */
  lemma TopFound(s: Snapshot, k: nat)
    requires k < 9
    ensures var items := MachineItems(s) + ServiceItems(s);
            |items| == 9 && Lookup(Meaning(StatusDoc(s)), items[k].key) == Some(Meaning(items[k].value))
  {
    hide Lookup, Meaning, IntDoc, SystemDoc, MotionDoc, DictionaryDoc, HandlersDoc, DisplayDoc, LedStripDoc, MqttDoc;
    ApartFound(MachineItems(s) + ServiceItems(s), "\n", k);
  }

  lemma DictionaryFound(s: Snapshot)
    ensures Lookup(Meaning(StatusDoc(s)), "dictionary") == Some(Meaning(DictionaryDoc(s)))
  {
    hide Lookup, Meaning, DictionaryDoc;
    TopFound(s, 7);
  }

  lemma EntriesFound(s: Snapshot)
    ensures Lookup(Meaning(DictionaryDoc(s)), "entries") == Some(Object(StringMembers(s.dictionaryEntries)))
  {
    hide Lookup, Meaning, EntriesDoc, IntDoc;
    var items := DictionaryCounters(s) + [Item(LEAD2, "entries", EntriesDoc(s.dictionaryEntries))];
    ApartFound(items, LEAD1, 5);
    EntriesMean(s.dictionaryEntries);
  }

  /** A number of the report, as a reader values it. */
  ghost predicate Reads(j: Option<Json>, n: int) {
    && j.Some? && j.value.Number?
    && var t := j.value.text;
       if n < 0 then |t| > 1 && t[0] == '-' && Digits(t[1..]) && Value(t[1..]) == -n
       else t != [] && Digits(t) && Value(t) == n
  }

  /** A number with two digits after the point, in hundredths. */
  ghost predicate ReadsLoad(j: Option<Json>, hundredths: nat) {
    && j.Some? && j.value.Number?
    && var t := j.value.text;
       && |t| > 3 && Digits(t[..|t| - 3]) && t[|t| - 3] == '.' && Digits(t[|t| - 2..])
       && Value(t[..|t| - 3]) * 100 + Value(t[|t| - 2..]) == hundredths
  }

  lemma IntReads(n: int)
    ensures Reads(Some(Meaning(IntDoc(n))), n)
  {
    hide Dec, Value;
    DecRoundTrip(if n < 0 then -n else n);
    if n < 0 {
      assert IntText(n)[1..] == Dec(-n);
    }
  }

  lemma DecReads(n: nat)
    ensures Reads(Some(Meaning(DNumber(Dec(n)))), n)
  {
    DecRoundTrip(n);
  }

  lemma LoadReads(h: nat)
    ensures ReadsLoad(Some(Meaning(DNumber(Load(h)))), h)
  {
    LoadText(h);
  }

  lemma SystemReported(s: Snapshot)
    ensures var system := Lookup(Meaning(StatusDoc(s)), "system");
            && system.Some?
            && var load := Lookup(system.value, "cpu_load");
            && load.Some?
            && (if s.system.loadValid then
                  && ReadsLoad(Lookup(load.value, "1min"), s.system.load1)
                  && ReadsLoad(Lookup(load.value, "5min"), s.system.load5)
                  && ReadsLoad(Lookup(load.value, "15min"), s.system.load15)
                else load == Some(Null))
            && (if s.system.memValid then
                  && Reads(Lookup(system.value, "mem_free_kb"), s.system.memFreeKb)
                  && Reads(Lookup(system.value, "mem_available_kb"), s.system.memAvailableKb)
                  && Reads(Lookup(system.value, "mem_total_kb"), s.system.memTotalKb)
                else
                  && Lookup(system.value, "mem_free_kb") == Some(Null)
                  && Lookup(system.value, "mem_available_kb") == Some(Null)
                  && Lookup(system.value, "mem_total_kb") == Some(Null))
  {
    hide Lookup, Reads, ReadsLoad, LoadDoc, Load, Dec;
    TopFound(s, 1);
    SystemMembers(s.system);
    if s.system.loadValid {
      LoadMembers(s.system);
      LoadReads(s.system.load1);
      LoadReads(s.system.load5);
      LoadReads(s.system.load15);
    } else {
      NoLoad(s.system);
    }
    DecReads(s.system.memFreeKb);
    DecReads(s.system.memAvailableKb);
    DecReads(s.system.memTotalKb);
  }

  lemma SystemMembers(s: System)
    ensures var j := Meaning(SystemDoc(s));
            && Lookup(j, "cpu_load") == Some(Meaning(LoadDoc(s)))
            && Lookup(j, "mem_free_kb") == Some(Meaning(MemDoc(s, s.memFreeKb)))
            && Lookup(j, "mem_available_kb") == Some(Meaning(MemDoc(s, s.memAvailableKb)))
            && Lookup(j, "mem_total_kb") == Some(Meaning(MemDoc(s, s.memTotalKb)))
  {
    hide Lookup, Meaning, LoadDoc, MemDoc;
    var items := [Item(LEAD2, "cpu_load", LoadDoc(s)), Item(LEAD2, "mem_free_kb", MemDoc(s, s.memFreeKb)),
                  Item(LEAD2, "mem_available_kb", MemDoc(s, s.memAvailableKb)), Item(LEAD2, "mem_total_kb", MemDoc(s, s.memTotalKb))];
    forall k | 0 <= k < 4
      ensures Lookup(Meaning(DObject(items, LEAD1)), items[k].key) == Some(Meaning(items[k].value))
    {
      ApartFound(items, LEAD1, k);
    }
    assert items[0].key == "cpu_load" && items[1].key == "mem_free_kb";
    assert items[2].key == "mem_available_kb" && items[3].key == "mem_total_kb";
  }

  lemma NoLoad(s: System)
    requires !s.loadValid
    ensures Meaning(LoadDoc(s)) == Null
  {
  }

  lemma LoadMembers(s: System)
    requires s.loadValid
    ensures var j := Meaning(LoadDoc(s));
            && Lookup(j, "1min") == Some(Meaning(DNumber(Load(s.load1))))
            && Lookup(j, "5min") == Some(Meaning(DNumber(Load(s.load5))))
            && Lookup(j, "15min") == Some(Meaning(DNumber(Load(s.load15))))
  {
    hide Lookup, Meaning, Load;
    var items := [Item("", "1min", DNumber(Load(s.load1))), Item(" ", "5min", DNumber(Load(s.load5))),
                  Item(" ", "15min", DNumber(Load(s.load15)))];
    forall k | 0 <= k < 3
      ensures Lookup(Meaning(DObject(items, "")), items[k].key) == Some(Meaning(items[k].value))
    {
      ApartFound(items, "", k);
    }
    assert items[0].key == "1min" && items[1].key == "5min" && items[2].key == "15min";
  }

  lemma SensorsReported(s: Snapshot)
    ensures var report := Meaning(StatusDoc(s));
            && Reads(Lookup(report, "version"), 1)
            && Reads(Lookup(report, "light_sensor"), ToInt(s.lightValue))
            && var motion := Lookup(report, "motion");
            && motion.Some?
            && Lookup(motion.value, "detected") == Some(Bool(s.motion.detected))
            && Reads(Lookup(motion.value, "last_change_hour"), s.motion.hour)
            && Reads(Lookup(motion.value, "last_change_min"), s.motion.min)
            && Reads(Lookup(motion.value, "last_change_sec"), s.motion.sec)
  {
    hide Lookup, Reads, IntDoc, ToInt;
    TopFound(s, 0);
    TopFound(s, 2);
    TopFound(s, 3);
    IntReads(1);
    IntReads(ToInt(s.lightValue));
    MotionMembers(s.motion);
    IntReads(s.motion.hour);
    IntReads(s.motion.min);
    IntReads(s.motion.sec);
  }

  lemma MotionMembers(m: Motion)
    ensures var j := Meaning(MotionDoc(m));
            && Lookup(j, "detected") == Some(Bool(m.detected))
            && Lookup(j, "last_change_hour") == Some(Meaning(IntDoc(m.hour)))
            && Lookup(j, "last_change_min") == Some(Meaning(IntDoc(m.min)))
            && Lookup(j, "last_change_sec") == Some(Meaning(IntDoc(m.sec)))
  {
    hide Lookup, IntDoc;
    var items := [Item(LEAD2, "detected", DBool(m.detected)), Item(LEAD2, "last_change_hour", IntDoc(m.hour)),
                  Item(LEAD2, "last_change_min", IntDoc(m.min)), Item(LEAD2, "last_change_sec", IntDoc(m.sec))];
    assert "last_change_min"[12] != "last_change_sec"[12];
    forall k | 0 <= k < 4
      ensures Lookup(Meaning(DObject(items, LEAD1)), items[k].key) == Some(Meaning(items[k].value))
    {
      MemberFound(items, LEAD1, k);
    }
    assert items[0].key == "detected" && items[1].key == "last_change_hour";
    assert items[2].key == "last_change_min" && items[3].key == "last_change_sec";
  }

  lemma ModesReported(s: Snapshot)
    ensures var display, strip := Lookup(Meaning(StatusDoc(s)), "display"), Lookup(Meaning(StatusDoc(s)), "led_strip");
            && display.Some? && strip.Some?
            && Lookup(display.value, "mode") == Some(Str(s.displayMode))
            && Lookup(display.value, "dimmed") == Some(Bool(s.displayDimmed))
            && Lookup(strip.value, "mode") == Some(Str(s.ledStripMode))
  {
    hide Lookup;
    TopFound(s, 4);
    TopFound(s, 5);
    ApartFound([Item("", "mode", DStr(s.displayMode)), Item(" ", "dimmed", DBool(s.displayDimmed))], "", 0);
    ApartFound([Item("", "mode", DStr(s.displayMode)), Item(" ", "dimmed", DBool(s.displayDimmed))], "", 1);
    ApartFound([Item("", "mode", DStr(s.ledStripMode))], "", 0);
  }

  lemma BrokerReported(s: Snapshot)
    ensures var mqtt := Lookup(Meaning(StatusDoc(s)), "mqtt");
            && mqtt.Some?
            && Lookup(mqtt.value, "broker_connected") == Some(Bool(s.mqtt.connected))
            && Lookup(mqtt.value, "broker_ip") == Some(Str(s.mqtt.brokerIp))
            && Reads(Lookup(mqtt.value, "broker_port"), s.mqtt.port)
            && Reads(Lookup(mqtt.value, "keep_alive_secs"), s.mqtt.keepAlive)
            && Reads(Lookup(mqtt.value, "last_loop_rc"), s.mqtt.lastLoopRc)
            && Lookup(mqtt.value, "last_loop_rc_str") == Some(Str(s.mqtt.lastLoopRcStr))
            && Reads(Lookup(mqtt.value, "connect_attempts"), ToInt(s.mqtt.connectAttempts))
            && Reads(Lookup(mqtt.value, "connects"), ToInt(s.mqtt.connects))
            && Reads(Lookup(mqtt.value, "disconnects"), ToInt(s.mqtt.disconnects))
            && Reads(Lookup(mqtt.value, "publishes"), ToInt(s.mqtt.publishes))
            && Reads(Lookup(mqtt.value, "published_motions"), ToInt(s.mqtt.publishedMotions))
            && Reads(Lookup(mqtt.value, "publishes_dropped"), ToInt(s.mqtt.publishesDropped))
            && Reads(Lookup(mqtt.value, "publish_callbacks"), ToInt(s.mqtt.publishCallbacks))
            && Reads(Lookup(mqtt.value, "messages"), ToInt(s.mqtt.messages))
            && Reads(Lookup(mqtt.value, "ticks"), ToInt(s.mqtt.ticks))
  {
    hide Lookup, Reads, IntDoc, ToInt, MqttDoc;
    TopFound(s, 6);
    BrokerMembers(s.mqtt);
    CounterMembers(s.mqtt);
    IntReads(s.mqtt.port);
    IntReads(s.mqtt.keepAlive);
    IntReads(s.mqtt.lastLoopRc);
    forall k | 0 <= k < 9
      ensures Reads(Some(Meaning(IntDoc(ToInt(CounterValues(s.mqtt)[k])))), ToInt(CounterValues(s.mqtt)[k]))
    {
      IntReads(ToInt(CounterValues(s.mqtt)[k]));
    }
  }

  lemma MqttItems(m: Mqtt)
    ensures var items := MqttHead(m) + CounterItems(COUNTER_NAMES, CounterValues(m), 9);
            && |items| == 15
            && (forall k :: 0 <= k < 6 ==> items[k] == MqttHead(m)[k])
            && (forall k :: 6 <= k < 15 ==> items[k] == Item(LEAD2, COUNTER_NAMES[k - 6], IntDoc(ToInt(CounterValues(m)[k - 6]))))
  {
    hide IntDoc, ToInt;
    CounterAt(COUNTER_NAMES, CounterValues(m), 9);
  }

  lemma {:induction false} CounterAt(names: seq<string>, values: seq<nat>, n: nat)
    requires n <= |names| == |values|
    ensures |CounterItems(names, values, n)| == n
    ensures forall k :: 0 <= k < n ==> CounterItems(names, values, n)[k] == Item(LEAD2, names[k], IntDoc(ToInt(values[k])))
  {
    if n > 0 {
      CounterAt(names, values, n - 1);
    }
  }

  lemma MqttFound(m: Mqtt, k: nat)
    requires k < 15
    ensures var items := MqttHead(m) + CounterItems(COUNTER_NAMES, CounterValues(m), 9);
            |items| == 15 && Lookup(Meaning(MqttDoc(m)), items[k].key) == Some(Meaning(items[k].value))
  {
    hide Lookup, Meaning, IntDoc, ToInt, CounterItems, CounterValues;
    MqttItems(m);
    ApartFound(MqttHead(m) + CounterItems(COUNTER_NAMES, CounterValues(m), 9), LEAD1, k);
  }

  lemma BrokerMembers(m: Mqtt)
    ensures var j := Meaning(MqttDoc(m));
            && Lookup(j, "broker_connected") == Some(Bool(m.connected))
            && Lookup(j, "broker_ip") == Some(Str(m.brokerIp))
            && Lookup(j, "broker_port") == Some(Meaning(IntDoc(m.port)))
            && Lookup(j, "keep_alive_secs") == Some(Meaning(IntDoc(m.keepAlive)))
            && Lookup(j, "last_loop_rc") == Some(Meaning(IntDoc(m.lastLoopRc)))
            && Lookup(j, "last_loop_rc_str") == Some(Str(m.lastLoopRcStr))
  {
    hide Lookup, IntDoc, ToInt, MqttDoc, CounterItems, CounterValues;
    MqttItems(m);
    MqttFound(m, 0);
    MqttFound(m, 1);
    MqttFound(m, 2);
    MqttFound(m, 3);
    MqttFound(m, 4);
    MqttFound(m, 5);
  }

  lemma CounterMembers(m: Mqtt)
    ensures forall k :: 0 <= k < 9 ==>
              Lookup(Meaning(MqttDoc(m)), COUNTER_NAMES[k]) == Some(Meaning(IntDoc(ToInt(CounterValues(m)[k]))))
    ensures COUNTER_NAMES[0] == "connect_attempts" && COUNTER_NAMES[1] == "connects" && COUNTER_NAMES[2] == "disconnects"
    ensures COUNTER_NAMES[3] == "publishes" && COUNTER_NAMES[4] == "published_motions" && COUNTER_NAMES[5] == "publishes_dropped"
    ensures COUNTER_NAMES[6] == "publish_callbacks" && COUNTER_NAMES[7] == "messages" && COUNTER_NAMES[8] == "ticks"
  {
    hide Lookup, Meaning, IntDoc, ToInt, MqttDoc, MqttHead, CounterItems, CounterValues;
    MqttItems(m);
    forall k | 0 <= k < 9
      ensures Lookup(Meaning(MqttDoc(m)), COUNTER_NAMES[k]) == Some(Meaning(IntDoc(ToInt(CounterValues(m)[k]))))
    {
      MqttFound(m, k + 6);
    }
  }

  lemma CountersReported(s: Snapshot)
    ensures var dictionary := Lookup(Meaning(StatusDoc(s)), "dictionary");
            && dictionary.Some?
            && Reads(Lookup(dictionary.value, "size"), ToInt(s.dictionarySize))
            && Reads(Lookup(dictionary.value, "ticks"), ToInt(s.dictionaryStatus.ticks))
            && Reads(Lookup(dictionary.value, "adds"), ToInt(s.dictionaryStatus.entriesAdded))
            && Reads(Lookup(dictionary.value, "removes"), ToInt(s.dictionaryStatus.entriesRemoved))
            && Reads(Lookup(dictionary.value, "expires"), ToInt(s.dictionaryStatus.entriesExpired))
  {
    hide Lookup, Meaning, Reads, IntDoc, ToInt, EntriesDoc;
    DictionaryFound(s);
    var items := DictionaryCounters(s) + [Item(LEAD2, "entries", EntriesDoc(s.dictionaryEntries))];
    forall k | 0 <= k < 5
      ensures Lookup(Meaning(DObject(items, LEAD1)), items[k].key) == Some(Meaning(items[k].value))
    {
      ApartFound(items, LEAD1, k);
    }
    assert items[0].key == "size" && items[1].key == "ticks" && items[2].key == "adds";
    assert items[3].key == "removes" && items[4].key == "expires";
    IntReads(ToInt(s.dictionarySize));
    IntReads(ToInt(s.dictionaryStatus.ticks));
    IntReads(ToInt(s.dictionaryStatus.entriesAdded));
    IntReads(ToInt(s.dictionaryStatus.entriesRemoved));
    IntReads(ToInt(s.dictionaryStatus.entriesExpired));
  }

  /** The hits of the web handlers, each under its handler's name, in their order; none if the
      web handler was not available. */
  lemma HitsReported(s: Snapshot)
    ensures var handlers := Lookup(Meaning(StatusDoc(s)), "handlers");
            && handlers.Some?
            && var hits := Lookup(handlers.value, "hits");
            && hits.Some? && hits.value.Object?
            && var given := if s.webHandlerAvailable then s.handlerHits else [];
            && |hits.value.members| == |given|
            && forall k :: 0 <= k < |given| ==>
                 && hits.value.members[k].key == given[k].0
                 && Reads(Some(hits.value.members[k].value), ToInt(given[k].1))
  {
    hide Lookup, Reads, IntDoc, ToInt;
    var given := if s.webHandlerAvailable then s.handlerHits else [];
    TopFound(s, 8);
    ApartFound([Item("", "hits", HitsDoc(given))], "", 0);
    HitsMean(given);
  }

  lemma {:induction false} HitsMean(hits: seq<(string, nat)>)
    ensures |Members(HitItems(hits))| == |hits|
    ensures forall k :: 0 <= k < |hits| ==>
              && Members(HitItems(hits))[k].key == hits[k].0
              && Reads(Some(Members(HitItems(hits))[k].value), ToInt(hits[k].1))
  {
    hide Reads, IntDoc, ToInt;
    if hits != [] {
      var front, last := hits[..|hits| - 1], hits[|hits| - 1];
      HitsMean(front);
      var item := Item(LEAD2, last.0, IntDoc(ToInt(last.1)));
      MembersAppend(HitItems(front), [item]);
      assert Members([item]) == [Member(last.0, Meaning(IntDoc(ToInt(last.1))))];
      IntReads(ToInt(last.1));
    }
  }

  lemma EntriesMean(pairs: seq<(string, string)>)
    ensures Meaning(EntriesDoc(pairs)) == Object(StringMembers(pairs))
  {
    PairsMean(pairs);
  }

  /** The report is a JSON text without a NUL; and what it is read as has, under
      dictionary and entries, the dictionary's pairs in their order. */
  lemma ReportReads(s: Snapshot)
    ensures var text := Text(StatusDoc(s)) + ['\n'];
            && NoNul(text)
            && ParseText(text) == Some(Meaning(StatusDoc(s)))
    ensures var dictionary := Lookup(Meaning(StatusDoc(s)), "dictionary");
            dictionary.Some? && Lookup(dictionary.value, "entries") == Some(Object(StringMembers(s.dictionaryEntries)))
  {
    hide DictionaryDoc, MachineItems, ServiceItems;
    StatusSpaced(s);
    TextHasNoNul(StatusDoc(s));
    NoNulParts(Text(StatusDoc(s)), ['\n']);
    DocReads(StatusDoc(s), ['\n']);
    ObjectText(MachineItems(s) + ServiceItems(s), "\n", ['\n']);
    SkipsSpaces(['\n'], []);
    assert ['\n'] + [] == ['\n'];
    DictionaryFound(s);
    EntriesFound(s);
  }
}
