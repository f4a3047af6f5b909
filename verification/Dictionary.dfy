/** The dictionary: a map whose entries time out, and are thrown away when somebody
    comes across them. */
module Dictionary {
  import opened Timers
  import opened Wrappers

  const NO_EXPIRATION: int := -1
  const WRAP: nat := 0x1_0000_0000

  // ---------------------------------------------------------------- order of keys

  /** The order of std::string: character by character, a prefix before its extensions. */
  predicate Less(a: string, b: string) {
    b != [] && (a == [] || a[0] < b[0] || (a[0] == b[0] && Less(a[1..], b[1..])))
  }

  /** The same order by a place in the keys: before it they agree, and there the first key
      has ended or has the smaller character. */
  ghost predicate Precedes(a: string, b: string) {
    exists i :: 0 <= i <= |a| && i < |b| && a[..i] == b[..i] && (i == |a| || a[i] < b[i])
  }

  lemma {:induction false} PlaceOf(a: string, b: string) returns (i: nat)
    requires Less(a, b)
    ensures i <= |a| && i < |b| && a[..i] == b[..i] && (i == |a| || a[i] < b[i])
    decreases |a|
  {
    if a == [] || a[0] < b[0] {
      i := 0;
    } else {
      var k := PlaceOf(a[1..], b[1..]);
      i := k + 1;
      FrontOf(a, k);
      FrontOf(b, k);
    }
  }

  lemma FrontOf(s: string, k: nat)
    requires k < |s|
    ensures s[..k + 1] == [s[0]] + s[1..][..k]
  {
  }

  lemma {:induction false} LessByPlace(a: string, b: string, i: nat)
    requires i <= |a| && i < |b| && a[..i] == b[..i] && (i == |a| || a[i] < b[i])
    ensures Less(a, b)
    decreases |a|
  {
    if i > 0 {
      assert a[0] == a[..i][0] == b[..i][0] == b[0];
      FrontOf(a, i - 1);
      FrontOf(b, i - 1);
      assert a[1..][..i - 1] == a[..i][1..] && b[1..][..i - 1] == b[..i][1..];
      LessByPlace(a[1..], b[1..], i - 1);
    }
  }

  lemma LessExactly(a: string, b: string)
    ensures Less(a, b) <==> exists i :: 0 <= i <= |a| && i < |b| && a[..i] == b[..i] && (i == |a| || a[i] < b[i])
    ensures Less(a, b) <==> Precedes(a, b)
  {
    if Less(a, b) {
      var i := PlaceOf(a, b);
    }
    if Precedes(a, b) {
      var i :| 0 <= i <= |a| && i < |b| && a[..i] == b[..i] && (i == |a| || a[i] < b[i]);
      LessByPlace(a, b, i);
    }
  }

  lemma {:induction false} LessTrans(a: string, b: string, c: string)
    requires Less(a, b) && Less(b, c)
    ensures Less(a, c)
  {
    if a != [] && a[0] == b[0] && b[0] == c[0] {
      LessTrans(a[1..], b[1..], c[1..]);
    }
  }

  lemma {:induction false} LessTotal(a: string, b: string)
    ensures Less(a, b) || a == b || Less(b, a)
    ensures !(Less(a, b) && Less(b, a)) && !Less(a, a)
  {
    if a != [] && b != [] {
      LessTotal(a[1..], b[1..]);
      if a[1..] == b[1..] && a[0] == b[0] {
        assert a == [a[0]] + a[1..] && b == [b[0]] + b[1..];
      }
    }
    LessIrreflexive(a);
  }

  lemma {:induction false} LessIrreflexive(a: string)
    ensures !Less(a, a)
  {
    if a != [] {
      LessIrreflexive(a[1..]);
    }
  }

  /** Is k the first of the keys after `key`? */
  predicate IsNext(keys: set<string>, key: string, k: string) {
    k in keys && Less(key, k) && forall other :: other in keys && Less(key, other) ==> !Less(other, k)
  }

  lemma NextExists(keys: set<string>, key: string)
    requires exists k :: k in keys && Less(key, k)
    ensures exists k :: IsNext(keys, key, k)
    decreases |keys|
  {
    var k :| k in keys && Less(key, k);
    var rest := keys - {k};
    if exists other :: other in rest && Less(key, other) {
      NextExists(rest, key);
      var m :| IsNext(rest, key, m);
      LessTotal(k, m);
      if Less(k, m) {
        forall other | other in keys && Less(key, other)
          ensures !Less(other, k)
        {
          if Less(other, k) {
            LessTotal(k, k);
            LessTrans(other, k, m);
          }
        }
        assert IsNext(keys, key, k);
      } else {
        assert IsNext(keys, key, m);
      }
    } else {
      LessTotal(k, k);
      assert IsNext(keys, key, k);
    }
  }

  // ---------------------------------------------------------------- entries

  datatype Entry = Entry(data: string, timer: Timer)

  function NewTimer(interval: int): Timer {
    var t := Timer(interval, false, 0);
    if interval >= 0 then Started(t) else t
  }

  /** getIsExpired: an entry without expiration never is. */
  predicate IsExpired(e: Entry) {
    e.timer.interval != NO_EXPIRATION && e.timer.ticksLeft == 0
  }

  // ---------------------------------------------------------------- the timed map

  /** An entry as the timed map knows it: what it holds and when it was added. */
  datatype Dated = Dated(data: string, interval: int, born: nat)

  /** Live for ever, or for as many ticks as the interval's period; an interval below -1
      is never live. */
  predicate Live(d: Dated, now: nat) {
    d.interval == NO_EXPIRATION || (d.interval >= 0 && now < d.born + Period(d.interval))
  }

  type Book = map<string, Dated>

  function LiveView(book: Book, now: nat): map<string, string> {
    map k | k in book && Live(book[k], now) :: book[k].data
  }

  /** Live, that is, until the age in ticks of 12 ms has outlasted the interval. */
  lemma LiveIsAge(d: Dated, now: nat)
    ensures Live(d, now) <==> d.interval == -1 || (d.interval >= 0 && 12 * (now - d.born) <= d.interval)
  {
  }

  /** The expiry flag that the timer keeps is the timed map's notion of dead. */
  lemma ExpiryIsAge(interval: int, data: string, born: nat, now: nat)
    requires born <= now
    ensures IsExpired(Entry(data, TickedTimes(NewTimer(interval), now - born))) <==> !Live(Dated(data, interval, born), now)
  {
    if interval >= 0 {
      OneShotExactly(Timer(interval, false, 0), now - born);
    } else {
      NeverStarted(interval, now - born);
    }
  }

  lemma {:induction false} NeverStarted(interval: int, n: nat)
    requires interval < 0
    ensures TickedTimes(NewTimer(interval), n) == NewTimer(interval)
  {
    if n > 0 {
      NeverStarted(interval, n - 1);
    }
  }

  // ---------------------------------------------------------------- counters

  datatype Status = Status(ticks: nat, entriesAdded: nat, entriesRemoved: nat, entriesExpired: nat)

  function Bump(counter: nat, amount: nat): nat { (counter + amount) % WRAP }

  lemma BumpCounts(total: nat, amount: nat)
    ensures Bump(total % WRAP, amount) == (total + amount) % WRAP
  {
  }

  lemma RemoveOne<V>(m: map<string, V>, k: string)
    requires k in m
    ensures |m - {k}| == |m| - 1
  {
  }

  lemma AddOne<V>(m: map<string, V>, k: string, v: V)
    requires k !in m
    ensures |m[k := v]| == |m| + 1
  {
  }

  // ---------------------------------------------------------------- walking

  /** The book without the keys after `from` and up to `to`, that one included. */
  function SweepTo(book: Book, from: string, to: string): Book {
    map k | k in book && !(Less(from, k) && !Less(to, k)) :: book[k]
  }

  /** The book without the keys strictly between the two. */
  function SweepBefore(book: Book, from: string, to: string): Book {
    map k | k in book && !(Less(from, k) && Less(k, to)) :: book[k]
  }

  function SweepRest(book: Book, from: string): Book {
    map k | k in book && !Less(from, k) :: book[k]
  }

  /** What a step of the walk amounts to: it lands on the first live key after `from`, or
      there is none; and the expired keys it passed are gone, and nothing else is. */
  ghost predicate AdvancedFrom(from: string, found: bool, key: string, data: string, before: Book, after: Book, now: nat) {
    var live := LiveView(before, now);
    if found then
      && IsNext(live.Keys, from, key) && data == live[key]
      && after == SweepBefore(before, from, key)
      && (forall k :: k in before && Less(from, k) && Less(k, key) ==> !Live(before[k], now))
    else
      && (forall k :: k in before && Less(from, k) ==> !Live(before[k], now))
      && data == "" && after == SweepRest(before, from)
  }

  /** The first entry of a view after a key, or that there is none. */
  ghost predicate FirstAfter(view: map<string, string>, from: string, found: bool, key: string, data: string) {
    if found then
      && key in view && data == view[key] && Precedes(from, key)
      && forall k :: k in view && k != key && Precedes(from, k) ==> Precedes(key, k)
    else data == "" && forall k :: k in view ==> !Precedes(from, k)
  }

  lemma AdvancedToFirst(from: string, found: bool, key: string, data: string, before: Book, after: Book, now: nat)
    requires AdvancedFrom(from, found, key, data, before, after, now)
    ensures FirstAfter(LiveView(before, now), from, found, key, data)
  {
    hide Less, Precedes, Live;
    forall k
      ensures Less(from, k) <==> Precedes(from, k)
      ensures Less(key, k) <==> Precedes(key, k)
      ensures k == key || Less(k, key) || Less(key, k)
    {
      LessExactly(from, k);
      LessExactly(key, k);
      LessTotal(k, key);
    }
  }

  /** The walk has reached `key`; it has found and removed only expired entries. */
  ghost predicate SweptTo(from: string, key: string, before: Book, after: Book, now: nat) {
    && (key == from || Less(from, key))
    && after == SweepTo(before, from, key)
    && (forall k :: k in before && Less(from, k) && !Less(key, k) ==> !Live(before[k], now))
  }

  lemma Starting(from: string, book: Book, now: nat)
    ensures SweptTo(from, from, book, book, now)
  {
  }

  lemma NothingAfter(from: string, key: string, before: Book, after: Book, now: nat)
    requires SweptTo(from, key, before, after, now)
    requires !exists k :: k in after && Less(key, k)
    ensures AdvancedFrom(from, false, key, "", before, after, now)
  {
  }

  lemma Beyond(from: string, at: string, key: string, k: string)
    requires (at == from || Less(from, at)) && Less(at, key)
    ensures Less(from, key)
    ensures Less(key, k) ==> Less(at, k) && Less(from, k)
    ensures !Less(k, key) && !Less(key, k) ==> k == key
    ensures !Less(at, k) ==> Less(k, key)
    ensures Less(k, key) ==> !Less(key, k) && k != key
  {
    if at != from {
      LessTrans(from, at, key);
    }
    if Less(key, k) {
      LessTrans(at, key, k);
      if at != from {
        LessTrans(from, at, k);
      }
    }
    LessTotal(k, key);
    LessTotal(key, key);
    LessTotal(at, k);
    if Less(k, at) {
      LessTrans(k, at, key);
    }
  }

  lemma Swept(from: string, at: string, key: string, before: Book, middle: Book, now: nat)
    requires SweptTo(from, at, before, middle, now)
    requires IsNext(middle.Keys, at, key) && !Live(middle[key], now)
    ensures SweptTo(from, key, before, middle - {key}, now)
  {
    forall k | k in before
      ensures k in middle - {key} <==> !(Less(from, k) && !Less(key, k))
      ensures Less(from, k) && !Less(key, k) ==> !Live(before[k], now)
    {
      Beyond(from, at, key, k);
    }
    Beyond(from, at, key, key);
    assert middle - {key} == SweepTo(before, from, key);
  }

  lemma Arrived(from: string, at: string, key: string, before: Book, after: Book, now: nat)
    requires SweptTo(from, at, before, after, now)
    requires IsNext(after.Keys, at, key) && Live(after[key], now)
    ensures AdvancedFrom(from, true, key, after[key].data, before, after, now)
  {
    Beyond(from, at, key, key);
    forall k | k in before
      ensures k in after <==> !(Less(from, k) && Less(k, key))
      ensures Less(from, k) && Less(k, key) ==> !Live(before[k], now)
    {
      Beyond(from, at, key, k);
    }
    assert after == SweepBefore(before, from, key);
    forall k | k in LiveView(before, now) && Less(from, k)
      ensures !Less(k, key)
    {
      Beyond(from, at, key, k);
    }
  }

  /** A walk from the start has come to `from`: it has yielded the live keys so far, each
      once and in order, and dropped the dead ones so far. */
  ghost predicate WalkedTo(before: Book, after: Book, now: nat, pairs: seq<(string, string)>, from: string) {
    var live := LiveView(before, now);
    && (forall i :: 0 <= i < |pairs| ==> pairs[i].0 in live && pairs[i].1 == live[pairs[i].0] && !Less(from, pairs[i].0))
    && Ascending(pairs)
    && (forall k :: k in live && !Less(from, k) ==> exists i :: 0 <= i < |pairs| && pairs[i].0 == k)
    && after == map k | k in before && (Live(before[k], now) || Less(from, k)) :: before[k]
  }

  ghost predicate Ascending(pairs: seq<(string, string)>) {
    forall i, j :: 0 <= i < j < |pairs| ==> Less(pairs[i].0, pairs[j].0)
  }

  lemma AscendingByPlace(pairs: seq<(string, string)>)
    requires Ascending(pairs)
    ensures forall i, j :: 0 <= i < j < |pairs| ==> Precedes(pairs[i].0, pairs[j].0)
  {
    hide Less, Precedes;
    forall i, j | 0 <= i < j < |pairs|
      ensures Precedes(pairs[i].0, pairs[j].0)
    {
      LessExactly(pairs[i].0, pairs[j].0);
    }
  }

  /** The whole walk: exactly the live entries, each once and in increasing order of keys;
      and nothing but them is left. */
  ghost predicate WalkedAll(before: Book, after: Book, now: nat, pairs: seq<(string, string)>) {
    var live := LiveView(before, now);
    && (forall i :: 0 <= i < |pairs| ==> pairs[i].0 in live && pairs[i].1 == live[pairs[i].0])
    && Ascending(pairs)
    && (forall k :: k in live ==> exists i :: 0 <= i < |pairs| && pairs[i].0 == k)
    && after == map k | k in before && Live(before[k], now) :: before[k]
  }

  lemma WalkBegins(book: Book, now: nat)
    requires "" !in book
    ensures WalkedTo(book, book, now, [], "")
  {
  }

  /** A step of the walk from `from` to the first live key after it, as the order sees it. */
  lemma StepOrder(from: string, key: string, k: string)
    requires Less(from, key)
    ensures Less(key, k) ==> Less(from, k)
    ensures !Less(from, k) ==> Less(k, key) && !Less(key, k)
    ensures !Less(key, key) && (!Less(key, k) && !Less(k, key) ==> k == key)
    ensures Less(k, key) ==> !Less(key, k) && k != key
  {
    Beyond(from, from, key, k);
    LessTotal(key, key);
  }

  lemma WalkGoesOn(before: Book, middle: Book, after: Book, now: nat, pairs: seq<(string, string)>, from: string, key: string, data: string)
    requires WalkedTo(before, middle, now, pairs, from)
    requires AdvancedFrom(from, true, key, data, middle, after, now)
    ensures WalkedTo(before, after, now, pairs + [(key, data)], key)
  {
    hide Less, Live;
    assert LiveView(middle, now) == LiveView(before, now);
    OnePairMore(LiveView(before, now), pairs, from, key, data);
    forall k | k in before
      ensures k in after <==> Live(before[k], now) || Less(key, k)
    {
      StepOrder(from, key, k);
    }
  }

  lemma OnePairMore(live: map<string, string>, pairs: seq<(string, string)>, from: string, key: string, data: string)
    requires IsNext(live.Keys, from, key) && data == live[key] && Ascending(pairs)
    requires forall i :: 0 <= i < |pairs| ==> pairs[i].0 in live && pairs[i].1 == live[pairs[i].0] && !Less(from, pairs[i].0)
    requires forall k :: k in live && !Less(from, k) ==> exists i :: 0 <= i < |pairs| && pairs[i].0 == k
    ensures var more := pairs + [(key, data)];
            && (forall i :: 0 <= i < |more| ==> more[i].0 in live && more[i].1 == live[more[i].0] && !Less(key, more[i].0))
            && Ascending(more)
            && (forall k :: k in live && !Less(key, k) ==> exists i :: 0 <= i < |more| && more[i].0 == k)
  {
    hide Less;
    var more := pairs + [(key, data)];
    forall i | 0 <= i < |more|
      ensures !Less(key, more[i].0) && (i < |pairs| ==> Less(more[i].0, key))
    {
      StepOrder(from, key, more[i].0);
    }
    forall k | k in live && !Less(key, k)
      ensures exists i :: 0 <= i < |more| && more[i].0 == k
    {
      StepOrder(from, key, k);
      if k == key {
        assert more[|pairs|].0 == k;
      } else {
        var i :| 0 <= i < |pairs| && pairs[i].0 == k;
        assert more[i].0 == k;
      }
    }
  }

  lemma WalkEnds(before: Book, middle: Book, after: Book, now: nat, pairs: seq<(string, string)>, from: string, key: string)
    requires WalkedTo(before, middle, now, pairs, from)
    requires AdvancedFrom(from, false, key, "", middle, after, now)
    ensures WalkedAll(before, after, now, pairs)
  {
  }

  /** The live keys that a walk at `from` has still to come to. */
  ghost function Ahead(book: Book, now: nat, from: string): set<string> {
    set k | k in LiveView(book, now) && Less(from, k)
  }

  lemma WalkShortens(before: Book, middle: Book, after: Book, now: nat, pairs: seq<(string, string)>, from: string, key: string, data: string)
    requires WalkedTo(before, middle, now, pairs, from)
    requires AdvancedFrom(from, true, key, data, middle, after, now)
    ensures Ahead(before, now, key) < Ahead(before, now, from)
  {
    assert LiveView(middle, now) == LiveView(before, now);
    assert key in Ahead(before, now, from);
    LessTotal(key, key);
    forall k | Less(key, k)
      ensures Less(from, k)
    {
      Beyond(from, from, key, k);
    }
  }

  // ---------------------------------------------------------------- agreement

  /** The timed map behind a dictionary, and its counters without wrap-around. */
  datatype Truth = Truth(now: nat, book: Book, added: nat, removed: nat, expired: nat)

  ghost predicate Aged(e: Entry, d: Dated, now: nat) {
    d.born <= now && e == Entry(d.data, TickedTimes(NewTimer(d.interval), now - d.born))
  }

  /** The entries are the timed map's, aged; what was added and not removed is there;
      every expiry is one of the removals; the counters are right modulo 2^32. */
  ghost predicate Agree(entries: map<string, Entry>, status: Status, t: Truth) {
    && "" !in t.book && t.book.Keys == entries.Keys
    && (forall k :: k in t.book ==> Aged(entries[k], t.book[k], t.now))
    && |entries| == |t.book| == t.added - t.removed && t.expired <= t.removed
    && status.entriesAdded == t.added % WRAP
    && status.entriesRemoved == t.removed % WRAP
    && status.entriesExpired == t.expired % WRAP
  }

  function Erased(t: Truth, key: string): Truth {
    t.(book := t.book - {key}, removed := t.removed + 1)
  }

  lemma ErasedAgrees(entries: map<string, Entry>, status: Status, t: Truth, key: string)
    requires Agree(entries, status, t) && key in entries
    ensures Agree(entries - {key}, status.(entriesRemoved := Bump(status.entriesRemoved, 1)), Erased(t, key))
  {
    RemoveOne(entries, key);
    RemoveOne(t.book, key);
    BumpCounts(t.removed, 1);
  }

  /** A removal that is an expiry is counted as both. */
  lemma ExpiredAgrees(entries: map<string, Entry>, status: Status, t: Truth)
    requires Agree(entries, status, t) && t.expired < t.removed
    ensures Agree(entries, status.(entriesExpired := Bump(status.entriesExpired, 1)), t.(expired := t.expired + 1))
  {
    BumpCounts(t.expired, 1);
  }

  lemma AddedAgrees(entries: map<string, Entry>, status: Status, t: Truth, key: string, data: string, interval: int)
    requires Agree(entries, status, t) && key !in entries && key != ""
    ensures Agree(entries[key := Entry(data, NewTimer(interval))], status.(entriesAdded := Bump(status.entriesAdded, 1)),
                  t.(book := t.book[key := Dated(data, interval, t.now)], added := t.added + 1))
  {
    AddOne(entries, key, Entry(data, NewTimer(interval)));
    AddOne(t.book, key, Dated(data, interval, t.now));
    BumpCounts(t.added, 1);
  }

  lemma ClearedAgrees(entries: map<string, Entry>, status: Status, t: Truth)
    requires Agree(entries, status, t)
    ensures Agree(map[], status.(entriesRemoved := Bump(status.entriesRemoved, |entries|)), t.(book := map[], removed := t.added))
  {
    BumpCounts(t.removed, |entries|);
  }

  function TickedEntries(entries: map<string, Entry>): map<string, Entry> {
    map k | k in entries :: entries[k].(timer := Ticked(entries[k].timer))
  }

  lemma TickedAgrees(entries: map<string, Entry>, status: Status, t: Truth)
    requires Agree(entries, status, t)
    ensures Agree(TickedEntries(entries), status, t.(now := t.now + 1))
  {
    var after := TickedEntries(entries);
    SameSize(entries, after);
    forall k | k in t.book
      ensures Aged(after[k], t.book[k], t.now + 1)
    {
      assert Aged(entries[k], t.book[k], t.now);
    }
  }

  lemma SameSize<V>(a: map<string, V>, b: map<string, V>)
    requires a.Keys == b.Keys
    ensures |a| == |b|
  {
  }

  lemma ExpiredIsDead(entries: map<string, Entry>, status: Status, t: Truth, key: string)
    requires Agree(entries, status, t) && key in entries
    ensures key in t.book && entries[key].data == t.book[key].data
    ensures IsExpired(entries[key]) <==> !Live(t.book[key], t.now)
  {
    assert Aged(entries[key], t.book[key], t.now);
    ExpiryIsAge(t.book[key].interval, t.book[key].data, t.book[key].born, t.now);
  }

  lemma DeadLeavesView(book: Book, key: string, now: nat)
    requires key in book && !Live(book[key], now)
    ensures LiveView(book - {key}, now) == LiveView(book, now)
  {
  }

  lemma PutBack(book: Book, key: string, d: Dated)
    ensures (book - {key})[key := d] == book[key := d]
  {
  }

  /** What a sweep takes away: as many removals as expiries, as many as the book loses. */
  ghost predicate SweptCounts(before: Truth, after: Truth) {
    && after.now == before.now && after.added == before.added
    && after.removed - before.removed == after.expired - before.expired == |before.book| - |after.book|
  }

  lemma DifferenceWraps(a: nat, b: nat)
    ensures (a - b) % WRAP == (a % WRAP - b % WRAP) % WRAP
  {
  }

  /** Size and counters balance, wrap-around included. */
  lemma Conservation(entries: map<string, Entry>, status: Status, t: Truth)
    requires Agree(entries, status, t)
    ensures |entries| % 0x1_0000_0000 == (status.entriesAdded - status.entriesRemoved) % 0x1_0000_0000
    ensures t.removed < 0x1_0000_0000 ==> status.entriesExpired <= status.entriesRemoved
  {
    hide Aged;
    DifferenceWraps(t.added, t.removed);
  }

  // ---------------------------------------------------------------- the entries' services

  /** The timer services registered for the entries: one for each entry that can expire,
      with the entry's countdown, and no other. */
  ghost predicate Registered(entries: map<string, Entry>, services: map<string, nat>, r: Registry) {
    && Sound(r)
    && (forall k :: k in services <==> k in entries && entries[k].timer.interval >= 0)
    && (forall k :: k in services ==> services[k] in r.live && r.live[services[k]] == entries[k].timer)
    && (forall k, l :: k in services && l in services && services[k] == services[l] ==> k == l)
    && (forall c :: c in r.live ==> exists k :: k in services && services[k] == c)
    && (forall k :: k in entries && entries[k].timer.interval < 0 ==> entries[k].timer.ticksLeft == 0)
  }

  lemma ServicesTick(entries: map<string, Entry>, services: map<string, nat>, r: Registry)
    requires Registered(entries, services, r)
    ensures Registered(TickedEntries(entries), services, Step(r, Tick))
  {
    hide Period, Expires;
    StepSound(r, Tick);
    forall k | k in entries
      ensures Ticked(entries[k].timer).interval == entries[k].timer.interval
    {
    }
  }

  /** The destructor of an entry unregisters its service, if it has one. */
  function Unregistered(services: map<string, nat>, key: string, r: Registry): Registry {
    if key in services then Step(r, Unregister(services[key])) else r
  }

  lemma ServicesErase(entries: map<string, Entry>, services: map<string, nat>, r: Registry, key: string)
    requires Registered(entries, services, r) && key in entries
    ensures Registered(entries - {key}, services - {key}, Unregistered(services, key, r))
  {
    var fewer, r' := services - {key}, Unregistered(services, key, r);
    if key in services {
      StepSound(r, Unregister(services[key]));
    }
    forall c | c in r'.live
      ensures exists k :: k in fewer && fewer[k] == c
    {
      var k :| k in services && services[k] == c;
      assert k in fewer && fewer[k] == c;
    }
  }

  lemma ServicesInsert(entries: map<string, Entry>, services: map<string, nat>, r: Registry, key: string, data: string, interval: int)
    requires Registered(entries, services, r) && key !in entries
    ensures var entries' := entries[key := Entry(data, NewTimer(interval))];
            if interval >= 0 then Registered(entries', services[key := r.next], Step(r, Register(interval, false, true)))
            else Registered(entries', services, r)
  {
    hide Period;
    var e := Register(interval, false, true);
    StepSound(r, e);
    if interval >= 0 {
      var more, r' := services[key := r.next], Step(r, e);
      forall c | c in r'.live
        ensures exists k :: k in more && more[k] == c
      {
        if c == r.next {
          assert more[key] == c;
        } else {
          var k :| k in services && services[k] == c;
          assert more[k] == c;
        }
      }
    }
  }

  /** A clear unregisters them one by one. */
  lemma {:induction false} UnregisterEach(r: Registry, cookies: seq<nat>)
    ensures Run(r, seq(|cookies|, i requires 0 <= i < |cookies| => Unregister(cookies[i]))) ==
            r.(live := map c | c in r.live && c !in cookies :: r.live[c])
    decreases |cookies|
  {
    var events := seq(|cookies|, i requires 0 <= i < |cookies| => Unregister(cookies[i]));
    if cookies != [] {
      var front, last := cookies[..|cookies| - 1], cookies[|cookies| - 1];
      assert events[..|events| - 1] == seq(|front|, i requires 0 <= i < |front| => Unregister(front[i]));
      assert cookies == front + [last];
      UnregisterEach(r, front);
    }
  }

  /** No service outlives its entry, however the entry went; and an entry with a service is
      expired exactly when the countdown of its service has run out. */
  lemma NoServiceLeftBehind(entries: map<string, Entry>, services: map<string, nat>, r: Registry)
    requires Registered(entries, services, r)
    ensures forall c :: c in r.live <==> exists k :: k in services && k in entries && services[k] == c
    ensures forall k :: k in entries && entries[k].timer.interval >= 0 ==>
              k in services && services[k] in r.live && (IsExpired(entries[k]) <==> r.live[services[k]].ticksLeft == 0)
    ensures entries == map[] ==> r.live == map[]
  {
  }

  // ---------------------------------------------------------------- requests

  function Param(post: map<string, string>, name: string, absent: string): string {
    if name in post then post[name] else absent
  }

  datatype Request =
    | Rejected
    | Delete(key: string)
    | Put(replace: bool, key: string, data: string, timeout: string)

  /** What a form asks for: an operation that exists, with a key and data unless it deletes. */
  function Requested(post: map<string, string>): Request {
    var operation := Param(post, "dictionaryOperation", "set");
    if operation == "del" then Delete(Param(post, "dictionaryKey", ""))
    else if "dictionaryKey" !in post || "dictionaryData" !in post then Rejected
    else if operation != "set" && operation != "add" then Rejected
    else Put(operation == "set", post["dictionaryKey"], post["dictionaryData"], Param(post, "dictionaryTimeout", "-1"))
  }

  /** What a request leaves in the book. A set takes the old entry out before it can fail
      on the timeout, so a bad timeout loses the entry. */
  function Answered(r: Request, book: Book, now: nat, timeout: Option<int>): (bool, Book) {
    match r
    case Rejected => (false, book)
    case Delete(key) => (true, if key == "" then map[] else book - {key})
    case Put(replace, key, data, _) =>
      var rest := if replace then book - {key} else book;
      if timeout.None? || key == "" || key in LiveView(rest, now) then (false, rest)
      else (true, rest[key := Dated(data, timeout.value, now)])
  }

  /** What a form asks for, field by field. The operation is "set" if the form has none. A
      "del" takes out its key, or everything if it has none; a "set" or an "add" needs a key
      and data, and without a timeout asks for "-1", no expiration. Anything else is refused
      and changes nothing. */
  lemma FormRequests(post: map<string, string>, book: Book, now: nat, stoi: string -> Option<int>)
    ensures var request := Requested(post);
            var (ok, after) := Answered(request, book, now, if request.Put? then stoi(request.timeout) else None);
            var operation := if "dictionaryOperation" in post then post["dictionaryOperation"] else "set";
            if operation == "del" then
              ok && after == if "dictionaryKey" in post && post["dictionaryKey"] != "" then book - {post["dictionaryKey"]} else map[]
            else if (operation == "set" || operation == "add") && "dictionaryKey" in post && "dictionaryData" in post then
              var key, data := post["dictionaryKey"], post["dictionaryData"];
              var interval := stoi(if "dictionaryTimeout" in post then post["dictionaryTimeout"] else "-1");
              && (ok <==> interval.Some? && key != "" && (operation == "add" ==> key !in LiveView(book, now)))
              && (ok ==> after == book[key := Dated(data, interval.value, now)])
              && (!ok ==> after == if operation == "set" then book - {key} else book)
            else !ok && after == book
  {
    if "dictionaryKey" in post && "dictionaryData" in post {
      var key, data := post["dictionaryKey"], post["dictionaryData"];
      var interval := stoi(if "dictionaryTimeout" in post then post["dictionaryTimeout"] else "-1");
      if interval.Some? {
        PutBack(book, key, Dated(data, interval.value, now));
      }
    }
  }

  // ---------------------------------------------------------------- the dictionary

  class Dictionary {
    var entries: map<string, Entry>
    var status: Status
    ghost var truth: Truth
    ghost var services: map<string, nat>    // the cookies of the entries' services
    ghost var registry: Registry            // the timer registry, as far as it is theirs

    constructor ()
      ensures Valid() && truth == Truth(0, map[], 0, 0, 0) && status == Status(0, 0, 0, 0)
    {
      entries, status := map[], Status(0, 0, 0, 0);
      truth := Truth(0, map[], 0, 0, 0);
      services, registry := map[], EMPTY;
    }

    ghost predicate Valid()
      reads this
    {
      Agree(entries, status, truth) && Registered(entries, services, registry) && registry.now == truth.now
    }

    ghost function View(): map<string, string>
      reads this
    {
      LiveView(truth.book, truth.now)
    }

    /** One turn of the timer thread, as far as the dictionary's timers go. */
    method Tick()
      requires Valid()
      modifies this`entries, this`truth, this`registry
      ensures Valid() && truth == old(truth).(now := old(truth).now + 1)
      ensures registry == Step(old(registry), Event.Tick)
    {
      hide Agree, Registered;
      TickedAgrees(entries, status, truth);
      ServicesTick(entries, services, registry);
      registry := Step(registry, Event.Tick);
      entries := TickedEntries(entries);
      truth := truth.(now := truth.now + 1);
    }

    /** Takes one entry out and counts it. */
    method Erase(key: string)
      requires Valid() && key in entries
      modifies this
      ensures Valid() && truth == Erased(old(truth), key)
    {
      hide Agree, Registered;
      ErasedAgrees(entries, status, truth, key);
      ServicesErase(entries, services, registry, key);
      registry, services := Unregistered(services, key, registry), services - {key};
      entries := entries - {key};
      status := status.(entriesRemoved := Bump(status.entriesRemoved, 1));
      truth := Erased(truth, key);
    }

    /** An expired entry is removed on the way and reported as absent. */
    method Get(key: string) returns (found: bool, data: string)
      requires Valid()
      modifies this
      ensures Valid() && View() == old(View())
      ensures found <==> key in View()
      ensures !found ==> key !in entries
      ensures data == if found then View()[key] else ""
      ensures truth == if key in old(truth).book && !found then Erased(old(truth), key).(expired := old(truth).expired + 1)
                       else old(truth)
    {
      hide Registered;
      if key !in entries {
        return false, "";
      }
      ExpiredIsDead(entries, status, truth, key);
      if IsExpired(entries[key]) {
        DeadLeavesView(truth.book, key, truth.now);
        Erase(key);
        ExpiredAgrees(entries, status, truth);
        status := status.(entriesExpired := Bump(status.entriesExpired, 1));
        truth := truth.(expired := truth.expired + 1);
        return false, "";
      }
      return true, entries[key].data;
    }

    /** Succeeds for a key that is neither empty nor live; an expired entry of that key
        gives way first, and the entry added dates from now. */
    method Add(key: string, data: string, interval: int) returns (ok: bool)
      requires Valid()
      modifies this
      ensures Valid() && truth.now == old(truth).now
      ensures ok <==> key != "" && key !in old(View())
      ensures truth.book == if ok then old(truth).book[key := Dated(data, interval, old(truth).now)] else old(truth).book
      ensures truth.added == old(truth).added + if ok then 1 else 0
      ensures truth.removed - old(truth).removed == truth.expired - old(truth).expired
    {
      if key == "" {
        return false;
      }
      var found, _ := Get(key);
      if found {
        return false;
      }
      Insert(key, data, interval);
      PutBack(old(truth).book, key, Dated(data, interval, truth.now));
      return true;
    }

    method Insert(key: string, data: string, interval: int)
      requires Valid() && key !in entries && key != ""
      modifies this
      ensures Valid()
      ensures truth == old(truth).(book := old(truth).book[key := Dated(data, interval, old(truth).now)], added := old(truth).added + 1)
    {
      hide Agree, Registered, NewTimer;
      AddedAgrees(entries, status, truth, key, data, interval);
      ServicesInsert(entries, services, registry, key, data, interval);
      if interval >= 0 {
        services, registry := services[key := registry.next], Step(registry, Event.Register(interval, false, true));
      }
      entries := entries[key := Entry(data, NewTimer(interval))];
      status := status.(entriesAdded := Bump(status.entriesAdded, 1));
      truth := truth.(book := truth.book[key := Dated(data, interval, truth.now)], added := truth.added + 1);
    }

    /** The answer is about physical presence: an expired entry still counts. */
    method Remove(key: string) returns (was: bool)
      requires Valid()
      modifies this
      ensures Valid() && was == (key in old(truth).book)
      ensures truth == if was then Erased(old(truth), key) else old(truth)
      ensures truth.book == old(truth).book - {key}
    {
      if key !in entries {
        assert truth.book == truth.book - {key};
        return false;
      }
      Erase(key);
      return true;
    }

    method Clear()
      requires Valid()
      modifies this
      ensures Valid() && truth == old(truth).(book := map[], removed := old(truth).added)
    {
      ClearedAgrees(entries, status, truth);
      assert Registered(map[], map[], registry.(live := map[]));
      services, registry := map[], registry.(live := map[]);
      status := status.(entriesRemoved := Bump(status.entriesRemoved, |entries|));
      entries := map[];
      truth := truth.(book := map[], removed := truth.added);
    }

    method GetFirst() returns (found: bool, key: string, data: string)
      requires Valid()
      modifies this
      ensures Valid() && AdvancedFrom("", found, key, data, old(truth).book, truth.book, truth.now)
      ensures FirstAfter(old(View()), "", found, key, data)
      ensures SweptCounts(old(truth), truth)
    {
      found, key, data := GetNext("");
    }

    /** The first live entry after `from`. Every expired entry up to it goes. */
    method GetNext(from: string) returns (found: bool, key: string, data: string)
      requires Valid()
      modifies this
      ensures Valid() && AdvancedFrom(from, found, key, data, old(truth).book, truth.book, truth.now)
      ensures FirstAfter(old(View()), from, found, key, data)
      ensures SweptCounts(old(truth), truth)
    {
      hide Registered, AdvancedFrom, FirstAfter, SweptTo, Live, Less, Aged;
      ghost var t0 := truth;
      key := from;
      Starting(from, truth.book, truth.now);
      while true
        invariant Valid() && SweptCounts(t0, truth)
        invariant SweptTo(from, key, t0.book, truth.book, truth.now)
        decreases |truth.book|
      {
        if !exists k :: k in entries && Less(key, k) {
          NothingAfter(from, key, t0.book, truth.book, truth.now);
          AdvancedToFirst(from, false, key, "", t0.book, truth.book, truth.now);
          return false, key, "";
        }
        NextExists(entries.Keys, key);
        ghost var at, t := key, truth;
        var next :| IsNext(entries.Keys, key, next);
        key := next;
        found, data := Get(key);
        if found {
          Arrived(from, at, key, t0.book, truth.book, truth.now);
          AdvancedToFirst(from, true, key, data, t0.book, truth.book, truth.now);
          return;
        }
        RemoveOne(t.book, key);
        Swept(from, at, key, t0.book, t.book, truth.now);
      }
    }

    /** Visits every entry, as the purge and the status report do: getFirst, then getNext
        until there is no more. */
    method Walk() returns (pairs: seq<(string, string)>)
      requires Valid()
      modifies this
      ensures Valid() && WalkedAll(old(truth).book, truth.book, truth.now, pairs)
      ensures forall i, j :: 0 <= i < j < |pairs| ==> Precedes(pairs[i].0, pairs[j].0)
      ensures SweptCounts(old(truth), truth)
    {
      ghost var t0 := truth;
      pairs := [];
      WalkBegins(truth.book, truth.now);
      ghost var from, middle := "", truth.book;
      var found, key, data := GetFirst();
      while found
        invariant Valid() && SweptCounts(t0, truth)
        invariant WalkedTo(t0.book, middle, t0.now, pairs, from)
        invariant AdvancedFrom(from, found, key, data, middle, truth.book, t0.now)
        decreases Ahead(t0.book, t0.now, from), found
      {
        WalkGoesOn(t0.book, middle, truth.book, t0.now, pairs, from, key, data);
        WalkShortens(t0.book, middle, truth.book, t0.now, pairs, from, key, data);
        pairs := pairs + [(key, data)];
        from, middle := key, truth.book;
        found, key, data := GetNext(key);
      }
      WalkEnds(t0.book, middle, truth.book, t0.now, pairs, from, key);
      AscendingByPlace(pairs);
    }

    /** A request from a form; `stoi` is the library's reading of a timeout. */
    method ParsePostRequest(post: map<string, string>, stoi: string -> Option<int>) returns (ok: bool)
      requires Valid()
      modifies this
      ensures Valid() && truth.now == old(truth).now
      ensures var r := Requested(post);
              && (ok, truth.book) == Answered(r, old(truth).book, truth.now, if r.Put? then stoi(r.timeout) else None)
              && truth.added == old(truth).added + (if ok && r.Put? then 1 else 0)
    {
      var r := Requested(post);
      match r {
        case Rejected => return false;
        case Delete(key) =>
          if key == "" {
            Clear();
          } else {
            var _ := Remove(key);
          }
          return true;
        case Put(replace, key, data, timeout) =>
          ok := Store(r, stoi(timeout));
      }
    }

    method Store(r: Request, timeout: Option<int>) returns (ok: bool)
      requires Valid() && r.Put?
      modifies this
      ensures Valid() && truth.now == old(truth).now
      ensures (ok, truth.book) == Answered(r, old(truth).book, truth.now, timeout)
      ensures truth.added == old(truth).added + (if ok then 1 else 0)
    {
      if r.replace {
        var _ := Remove(r.key);
      }
      if timeout.None? {
        return false;
      }
      ok := Add(r.key, r.data, timeout.value);
    }
  }

  /** A set with a readable timeout and a key always succeeds, and only its key changes. */
  lemma SetReplaces(book: Book, now: nat, key: string, data: string, timeout: string, interval: int)
    requires key != ""
    ensures Answered(Put(true, key, data, timeout), book, now, Some(interval)) == (true, book[key := Dated(data, interval, now)])
  {
    PutBack(book, key, Dated(data, interval, now));
  }

  /** When a request that is refused changes the dictionary all the same: exactly when it
      is a set with an unreadable timeout for a key that is there, and then it takes that
      key out and nothing else. Its users see it exactly if the entry was live. */
  lemma RefusedRequest(r: Request, book: Book, now: nat, timeout: Option<int>)
    requires "" !in book && !Answered(r, book, now, timeout).0
    ensures var after := Answered(r, book, now, timeout).1;
            var losing := r.Put? && r.replace && timeout.None?;
            && (after == book <==> !(losing && r.key in book))
            && (LiveView(after, now) == LiveView(book, now) <==> !(losing && r.key in LiveView(book, now)))
            && (losing ==> after == book - {r.key})
  {
    if r.Put? {
      var without := book - {r.key};
      assert r.key !in book ==> without == book;
      assert LiveView(without, now) == LiveView(book, now) - {r.key};
      assert r.key !in LiveView(book, now) ==> LiveView(book, now) - {r.key} == LiveView(book, now);
    }
  }
}
