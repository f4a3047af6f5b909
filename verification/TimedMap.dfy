/** The dictionary as its users think of it: a map whose entries are there until they
    are too old. Nothing is ever thrown away here because it has expired, so the module
    is what the dictionary's lazy expiry has to be invisible against. */
module TimedMap {
  import opened Timers
  import opened Dictionary
  import opened Wrappers

  datatype Call =
    | Tick
    | Get(key: string)
    | Add(key: string, data: string, interval: int)
    | Remove(key: string)
    | Clear
    | Walk
    | GetNext(from: string)     // getFirst is the one from the empty key
    | Post(form: map<string, string>)

  datatype Answer =
    | Nothing
    | Found(data: Option<string>)
    | Success(ok: bool)
    | Next(found: bool, key: string, entry: string)
    | Listed(pairs: seq<(string, string)>)

  datatype Ideal = Ideal(now: nat, book: Book)

  const NEW := Ideal(0, map[])

  type Reader = string -> Option<int>   // the library's reading of a timeout

  function Timeout(r: Request, stoi: Reader): Option<int> {
    if r.Put? then stoi(r.timeout) else None
  }

  function Do(m: Ideal, call: Call, stoi: Reader): Ideal {
    match call
    case Tick => m.(now := m.now + 1)
    case Get(_) => m
    case Add(key, data, interval) =>
      if key == "" || key in LiveView(m.book, m.now) then m
      else m.(book := m.book[key := Dated(data, interval, m.now)])
    case Remove(key) => m.(book := m.book - {key})
    case Clear => m.(book := map[])
    case Walk => m
    case GetNext(_) => m
    case Post(form) =>
      var r := Requested(form);
      m.(book := Answered(r, m.book, m.now, Timeout(r, stoi)).1)
  }

  function DoAll(calls: seq<Call>, stoi: Reader): Ideal {
    if calls == [] then NEW else Do(DoAll(calls[..|calls| - 1], stoi), calls[|calls| - 1], stoi)
  }

  /** Exactly the pairs of a view, each once and in increasing order of keys. */
  ghost predicate Lists(pairs: seq<(string, string)>, view: map<string, string>) {
    && (forall i :: 0 <= i < |pairs| ==> pairs[i].0 in view && pairs[i].1 == view[pairs[i].0])
    && (forall i, j :: 0 <= i < j < |pairs| ==> Precedes(pairs[i].0, pairs[j].0))
    && (forall k :: k in view ==> exists i :: 0 <= i < |pairs| && pairs[i].0 == k)
  }

  /** The answers a call may give. Only a removal's is left partly open: for a key that is
      no longer live it tells whether the entry had been come across since. */
  ghost predicate Right(m: Ideal, call: Call, a: Answer, stoi: Reader) {
    var view := LiveView(m.book, m.now);
    match call
    case Tick => a == Nothing
    case Get(key) => a == Found(if key in view then Some(view[key]) else None)
    case Add(key, _, _) => a == Success(key != "" && key !in view)
    case Remove(key) => a.Success? && (key in view ==> a.ok) && (a.ok ==> key in m.book)
    case Clear => a == Nothing
    case Walk => a.Listed? && Lists(a.pairs, view)
    case GetNext(from) => a.Next? && FirstAfter(view, from, a.found, a.key, a.entry)
    case Post(form) =>
      var r := Requested(form);
      a == Success(Answered(r, m.book, m.now, Timeout(r, stoi)).0)
  }

  // ---------------------------------------------------------------- agreement

  function Current(book: Book, now: nat): Book {
    map k | k in book && Live(book[k], now) :: book[k]
  }

  /** The dictionary has forgotten some dead entries of the timed map, and nothing else. */
  ghost predicate Same(m: Ideal, t: Truth) {
    && m.now == t.now
    && Current(m.book, m.now) == Current(t.book, t.now)
    && t.book.Keys <= m.book.Keys
  }

  lemma SameView(a: Book, b: Book, now: nat)
    requires Current(a, now) == Current(b, now)
    ensures LiveView(a, now) == LiveView(b, now)
  {
  }

  /** What is dead stays dead, so the turn of the clock cannot tell two such books apart. */
  lemma SameLater(a: Book, b: Book, now: nat)
    requires Current(a, now) == Current(b, now)
    ensures Current(a, now + 1) == Current(b, now + 1)
  {
    forall book: Book, k | book == a || book == b
      ensures k in Current(book, now + 1) <==> k in Current(book, now) && Live(Current(book, now)[k], now + 1)
    {
    }
  }

  lemma SameTicked(m: Ideal, t: Truth)
    requires Same(m, t)
    ensures Same(m.(now := m.now + 1), t.(now := t.now + 1))
  {
    SameLater(m.book, t.book, m.now);
  }

  lemma SameWithout(a: Book, b: Book, now: nat, key: string)
    requires Current(a, now) == Current(b, now)
    ensures Current(a - {key}, now) == Current(b - {key}, now)
  {
    assert Current(a - {key}, now) == Current(a, now) - {key};
    assert Current(b - {key}, now) == Current(b, now) - {key};
  }

  lemma SameWith(a: Book, b: Book, now: nat, key: string, d: Dated)
    requires Current(a, now) == Current(b, now)
    ensures Current(a[key := d], now) == Current(b[key := d], now)
  {
    SameWithout(a, b, now, key);
    forall book: Book | book == a || book == b
      ensures Current(book[key := d], now) == if Live(d, now) then Current(book - {key}, now)[key := d] else Current(book - {key}, now)
    {
    }
  }

  lemma SameAnswer(r: Request, a: Book, b: Book, now: nat, timeout: Option<int>)
    requires Current(a, now) == Current(b, now) && b.Keys <= a.Keys
    ensures Answered(r, a, now, timeout).0 == Answered(r, b, now, timeout).0
    ensures Current(Answered(r, a, now, timeout).1, now) == Current(Answered(r, b, now, timeout).1, now)
    ensures Answered(r, b, now, timeout).1.Keys <= Answered(r, a, now, timeout).1.Keys
  {
    match r {
      case Rejected =>
      case Delete(key) => SameWithout(a, b, now, key);
      case Put(replace, key, data, _) =>
        SameWithout(a, b, now, key);
        var resta, restb := if replace then a - {key} else a, if replace then b - {key} else b;
        SameView(resta, restb, now);
        if timeout.Some? {
          SameWith(resta, restb, now, key, Dated(data, timeout.value, now));
        }
    }
  }

  /** Sweeping dead entries out is not noticed. */
  lemma SameSwept(m: Ideal, before: Truth, after: Truth)
    requires Same(m, before) && after.now == before.now
    requires after.book == Current(before.book, before.now)
    ensures Same(m, after)
  {
  }

  lemma SameAdvanced(m: Ideal, from: string, found: bool, key: string, data: string, before: Truth, after: Truth)
    requires Same(m, before) && after.now == before.now
    requires AdvancedFrom(from, found, key, data, before.book, after.book, before.now)
    ensures Same(m, after) && FirstAfter(LiveView(m.book, m.now), from, found, key, data)
  {
    SameView(m.book, before.book, m.now);
    AdvancedToFirst(from, found, key, data, before.book, after.book, before.now);
    assert Current(after.book, after.now) == Current(before.book, before.now);
  }

  lemma DeadOut(book: Book, now: nat, key: string)
    requires key in book && !Live(book[key], now)
    ensures Current(book - {key}, now) == Current(book, now)
  {
  }

  // ---------------------------------------------------------------- runs

  /** Does the answer say that an entry was added? */
  function Adds(call: Call, a: Answer): nat {
    if a == Success(true) && (call.Add? || (call.Post? && Requested(call.form).Put?)) then 1 else 0
  }

  function AddsIn(calls: seq<Call>, answers: seq<Answer>): nat
    requires |answers| <= |calls|
  {
    if answers == [] then 0
    else
      var n := |answers| - 1;
      AddsIn(calls, answers[..n]) + Adds(calls[n], answers[n])
  }

  /** The counters of a dictionary of `size` entries to which `added` have been added: all
      others have been removed, `expired` of them for their age. */
  ghost predicate Accounts(status: Status, added: nat, size: nat, expired: nat) {
    && size <= added && expired <= added - size
    && status.entriesAdded == added % 0x1_0000_0000
    && status.entriesRemoved == (added - size) % 0x1_0000_0000
    && status.entriesExpired == expired % 0x1_0000_0000
  }

  method Perform(d: Dictionary, call: Call, stoi: Reader, ghost m: Ideal) returns (a: Answer)
    requires d.Valid() && Same(m, d.truth)
    modifies d
    ensures d.Valid() && Same(Do(m, call, stoi), d.truth) && Right(m, call, a, stoi)
    ensures d.truth.added == old(d.truth).added + Adds(call, a)
  {
    hide Current, Live, LiveView, Requested, Answered, FirstAfter, Lists, Agree, Registered;
    SameView(m.book, d.truth.book, m.now);
    match call {
      case Tick =>
        SameTicked(m, d.truth);
        d.Tick();
        a := Nothing;
      case Get(key) => a := PerformGet(d, key, m);
      case Add(key, data, interval) => a := PerformAdd(d, key, data, interval, stoi, m);
      case Remove(key) => a := PerformRemove(d, key, stoi, m);
      case Clear =>
        d.Clear();
        a := Nothing;
      case Walk => a := PerformWalk(d, m);
      case GetNext(from) => a := PerformGetNext(d, from, m);
      case Post(form) => a := PerformPost(d, form, stoi, m);
    }
  }

  method PerformAdd(d: Dictionary, key: string, data: string, interval: int, stoi: Reader, ghost m: Ideal) returns (a: Answer)
    requires d.Valid() && Same(m, d.truth) && LiveView(m.book, m.now) == d.View()
    modifies d
    ensures d.Valid() && Same(Do(m, Add(key, data, interval), stoi), d.truth)
    ensures Right(m, Add(key, data, interval), a, stoi)
    ensures d.truth.added == old(d.truth).added + Adds(Add(key, data, interval), a)
  {
    SameWith(m.book, d.truth.book, m.now, key, Dated(data, interval, m.now));
    var ok := d.Add(key, data, interval);
    a := Success(ok);
  }

  method PerformRemove(d: Dictionary, key: string, stoi: Reader, ghost m: Ideal) returns (a: Answer)
    requires d.Valid() && Same(m, d.truth) && LiveView(m.book, m.now) == d.View()
    modifies d
    ensures d.Valid() && Same(Do(m, Remove(key), stoi), d.truth) && Right(m, Remove(key), a, stoi)
    ensures d.truth.added == old(d.truth).added
  {
    SameWithout(m.book, d.truth.book, m.now, key);
    var ok := d.Remove(key);
    a := Success(ok);
  }

  method PerformWalk(d: Dictionary, ghost m: Ideal) returns (a: Answer)
    requires d.Valid() && Same(m, d.truth) && LiveView(m.book, m.now) == d.View()
    modifies d
    ensures d.Valid() && Same(m, d.truth)
    ensures a.Listed? && Lists(a.pairs, LiveView(m.book, m.now))
    ensures d.truth.added == old(d.truth).added
  {
    ghost var before := d.truth;
    var pairs := d.Walk();
    SameSwept(m, before, d.truth);
    a := Listed(pairs);
  }

  method PerformGetNext(d: Dictionary, from: string, ghost m: Ideal) returns (a: Answer)
    requires d.Valid() && Same(m, d.truth)
    modifies d
    ensures d.Valid() && Same(m, d.truth)
    ensures a.Next? && FirstAfter(LiveView(m.book, m.now), from, a.found, a.key, a.entry)
    ensures d.truth.added == old(d.truth).added
  {
    ghost var before := d.truth;
    var found, key, data := d.GetNext(from);
    SameAdvanced(m, from, found, key, data, before, d.truth);
    a := Next(found, key, data);
  }

  method PerformPost(d: Dictionary, form: map<string, string>, stoi: Reader, ghost m: Ideal) returns (a: Answer)
    requires d.Valid() && Same(m, d.truth)
    modifies d
    ensures d.Valid() && Same(Do(m, Post(form), stoi), d.truth) && Right(m, Post(form), a, stoi)
    ensures d.truth.added == old(d.truth).added + Adds(Post(form), a)
  {
    ghost var r := Requested(form);
    SameAnswer(r, m.book, d.truth.book, m.now, Timeout(r, stoi));
    var ok := d.ParsePostRequest(form, stoi);
    a := Success(ok);
  }

  method PerformGet(d: Dictionary, key: string, ghost m: Ideal) returns (a: Answer)
    requires d.Valid() && Same(m, d.truth) && LiveView(m.book, m.now) == d.View()
    modifies d
    ensures d.Valid() && Same(m, d.truth)
    ensures var view := LiveView(m.book, m.now); a == Found(if key in view then Some(view[key]) else None)
    ensures d.truth.added == old(d.truth).added
  {
    ghost var before := d.truth;
    var found, data := d.Get(key);
    if key in before.book && !found {
      DeadOut(before.book, before.now, key);
    }
    a := Found(if found then Some(data) else None);
  }

  /** Every answer so far was right when it was given. */
  ghost predicate AllRight(calls: seq<Call>, answers: seq<Answer>, stoi: Reader) {
    && |answers| <= |calls|
    && forall i :: 0 <= i < |answers| ==> Right(DoAll(calls[..i], stoi), calls[i], answers[i], stoi)
  }

  lemma NothingYet(calls: seq<Call>, stoi: Reader)
    ensures Same(DoAll(calls[..0], stoi), Truth(0, map[], 0, 0, 0)) && AllRight(calls, [], stoi)
  {
  }

  lemma DoNext(calls: seq<Call>, n: nat, stoi: Reader)
    requires n < |calls|
    ensures DoAll(calls[..n + 1], stoi) == Do(DoAll(calls[..n], stoi), calls[n], stoi)
  {
    hide Do;
    assert calls[..n + 1][..n] == calls[..n];
  }

  lemma DoWhole(calls: seq<Call>, stoi: Reader)
    ensures DoAll(calls[..|calls|], stoi) == DoAll(calls, stoi)
  {
    assert calls[..|calls|] == calls;
  }

  lemma OneMoreRight(calls: seq<Call>, answers: seq<Answer>, a: Answer, stoi: Reader)
    requires AllRight(calls, answers, stoi) && |answers| < |calls|
    requires Right(DoAll(calls[..|answers|], stoi), calls[|answers|], a, stoi)
    ensures AllRight(calls, answers + [a], stoi)
  {
    hide Right, DoAll;
  }

  lemma KeysKept(m: Ideal, entries: map<string, Entry>, status: Status, t: Truth)
    requires Same(m, t) && Agree(entries, status, t)
    ensures LiveView(m.book, m.now).Keys <= entries.Keys <= m.book.Keys
  {
  }

  /** Any calls on a new dictionary, in any order and with the clock turning between them:
      every answer is the timed map's; no live entry is missing in the end; and the three
      counters are those of the entries that the answers say were added. */
  method AnyRun(calls: seq<Call>, stoi: Reader) returns (answers: seq<Answer>, keys: set<string>, status: Status)
    ensures |answers| == |calls| && AllRight(calls, answers, stoi)
    ensures var m := DoAll(calls, stoi); LiveView(m.book, m.now).Keys <= keys <= m.book.Keys
    ensures |keys| % 0x1_0000_0000 == (status.entriesAdded - status.entriesRemoved) % 0x1_0000_0000
    ensures exists expired :: Accounts(status, AddsIn(calls, answers), |keys|, expired)
  {
    hide Right, Same, AllRight, DoAll, Do, Agree, Registered, LiveView, Adds, Accounts;
    var d := new Dictionary();
    answers := [];
    NothingYet(calls, stoi);
    for n := 0 to |calls|
      invariant fresh(d) && d.Valid() && Same(DoAll(calls[..n], stoi), d.truth)
      invariant |answers| == n && AllRight(calls, answers, stoi)
      invariant d.truth.added == AddsIn(calls, answers)
    {
      ghost var m := DoAll(calls[..n], stoi);
      var a := Perform(d, calls[n], stoi, m);
      OneMoreRight(calls, answers, a, stoi);
      assert (answers + [a])[..n] == answers;
      answers := answers + [a];
      DoNext(calls, n, stoi);
    }
    DoWhole(calls, stoi);
    keys, status := d.entries.Keys, d.status;
    KeysKept(DoAll(calls, stoi), d.entries, d.status, d.truth);
    Conservation(d.entries, d.status, d.truth);
    AccountsOf(d.entries, d.status, d.truth);
  }

  lemma AccountsOf(entries: map<string, Entry>, status: Status, t: Truth)
    requires Agree(entries, status, t)
    ensures Accounts(status, t.added, |entries.Keys|, t.expired) && |entries| == |entries.Keys|
  {
  }
}
