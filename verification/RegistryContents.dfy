/** What the registry holds after every run, in terms of the run: which messages are cached,
    which apps are listed, and what is known of them. */
module RegistryContents {
  import opened Pointer
  import opened Registry
  import opened RegistryRuns

  // ---- who is dropped ----

  /** The id is the first in the deque that is still in use. */
  ghost predicate IsFirstLive<K>(order: seq<K>, keys: set<K>, k: K) {
    exists j :: 0 <= j < |order| && order[j] == k && k in keys && forall m | 0 <= m < j :: order[m] !in keys
  }

  /** The id is in the deque no later than that one. */
  ghost predicate IsPopped<K>(order: seq<K>, keys: set<K>, k: K) {
    exists j :: 0 <= j < |order| && order[j] == k && forall m | 0 <= m < j :: order[m] !in keys
  }

  /** A new app says hello to a full registry. */
  predicate Overflows(s: State, e: Envelope) {
    e.kind == "hello" && e.appId !in s.apps && |s.apps| == 64
  }

  ghost predicate EvictsApp(s: State, e: Envelope, appId: string) {
    Overflows(s, e) && IsFirstLive(s.appOrder + [e.appId], s.apps.Keys + {e.appId}, appId)
  }

  /** The app's messages go with the eviction of an app. */
  ghost predicate PopsApp(s: State, e: Envelope, appId: string) {
    Overflows(s, e) && IsPopped(s.appOrder + [e.appId], s.apps.Keys + {e.appId}, appId)
  }

  /** The message comes under a new key and finds the cache full, and this key has to go. */
  ghost predicate EvictsKey(s: State, e: Envelope, now: int, k: Key) {
    var a := AppRecorded(s, e, now);
    KeyOf(e) !in a.cache && |a.cache| == 2000 && IsFirstLive(a.cacheOrder + [KeyOf(e)], a.cache.Keys + {KeyOf(e)}, k)
  }

  lemma {:induction false} FirstLiveIs<K>(order: seq<K>, keys: set<K>, i: nat, k: K)
    requires i < |order| && order[i] in keys && forall j | 0 <= j < i :: order[j] !in keys
    ensures IsFirstLive(order, keys, k) <==> k == order[i]
    ensures IsPopped(order, keys, k) <==> k in order[..i + 1]
  {
    if IsFirstLive(order, keys, k) {
      var j :| 0 <= j < |order| && order[j] == k && k in keys && forall m | 0 <= m < j :: order[m] !in keys;
      assert i == j;
    }
    if IsPopped(order, keys, k) {
      var j :| 0 <= j < |order| && order[j] == k && forall m | 0 <= m < j :: order[m] !in keys;
      assert j <= i;
      assert order[..i + 1][j] == k;
    }
    if k in order[..i + 1] {
      var j :| 0 <= j < i + 1 && order[..i + 1][j] == k;
      assert order[j] == k;
    }
  }

  // ---- one step ----

  lemma {:induction false} AppHalf(s: State, e: Envelope, now: int, a: string, k: Key)
    requires Capped(s)
    ensures var t := AppRecorded(s, e, now);
            && (a in t.apps <==> (a in s.apps || (e.kind == "hello" && e.appId == a)) && !EvictsApp(s, e, a))
            && (k in t.cache <==> k in s.cache && !PopsApp(s, e, k.appId))
            && (k in t.cache ==> t.cache[k] == s.cache[k])
            && t.cacheOrder == s.cacheOrder
  {
    hide AppRecorded, AppsEvicted, HelloInfo, Capped, IsFirstLive, IsPopped;
    AppRecordedIsCapped(s, e, now);
    if Overflows(s, e) {
      var i := AddingAtTheCap(s, e, now);
      var t := AppAdded(s, e, now);
      AddedIsCovered(s, e, now);
      FirstLiveIs(t.appOrder, t.apps.Keys, i, a);
      FirstLiveIs(t.appOrder, t.apps.Keys, i, k.appId);
    } else {
      NobodyEvicted(s, e, now);
    }
  }

  lemma {:induction false} NobodyEvicted(s: State, e: Envelope, now: int)
    requires Capped(s) && !Overflows(s, e)
    ensures var t := AppRecorded(s, e, now);
            && t.cache == s.cache
            && t.apps.Keys == if e.kind == "hello" then s.apps.Keys + {e.appId} else s.apps.Keys
  {
    if e.kind == "hello" && e.appId !in s.apps {
      hide AppRecorded, AppsEvicted;
      AddedIsCovered(s, e, now);
      AddingApp(s, e, now);
      EvictionStep(AppAdded(s, e, now));
    }
  }

  lemma {:induction false} MessageHalf(a: State, e: Envelope, k: Key)
    requires Capped(a)
    ensures var t := MessageRecorded(a, e);
            var gone := KeyOf(e) !in a.cache && |a.cache| == 2000
                        && IsFirstLive(a.cacheOrder + [KeyOf(e)], a.cache.Keys + {KeyOf(e)}, k);
            && (k in t.cache <==> (k == KeyOf(e) || k in a.cache) && !gone)
            && (k in t.cache ==> t.cache[k] == if k == KeyOf(e) then e else a.cache[k])
            && t.apps == a.apps
  {
    hide CacheEvicted, KeyOf, Capped, IsFirstLive;
    MessageRecordedIsCapped(a, e);
    if KeyOf(e) !in a.cache {
      hide MessageRecorded;
      AddingMessage(a, e);
      AddedMessageIsCovered(a, e);
      var t := MessageAdded(a, e);
      if |a.cache| == MAX_CACHE_ENTRIES {
        var i := FirstLive(t.cacheOrder, t.cache.Keys);
        CacheEviction(t, i);
        FirstLiveIs(t.cacheOrder, t.cache.Keys, i, k);
      } else {
        CappedCache(a);
      }
    }
  }

  lemma {:induction false} CappedCache(s: State)
    requires Capped(s)
    ensures |s.cache| <= MAX_CACHE_ENTRIES
  {
  }

  /** The event takes the message from the cache, or does not even let it in. */
  ghost predicate Loses(s: State, e: Event, k: Key) {
    match e
    case Forgets(appId) => k.appId == appId
    case Records(envelope, now) =>
      (k != KeyOf(envelope) && PopsApp(s, envelope, k.appId)) || EvictsKey(s, envelope, now, k)
    case _ => false
  }

  ghost predicate Drops(s: State, e: Event, appId: string) {
    e == Forgets(appId) || (e.Records? && EvictsApp(s, e.envelope, appId))
  }

  predicate Brings(e: Event, k: Key) {
    e.Records? && KeyOf(e.envelope) == k
  }

  predicate Greets(e: Event, appId: string) {
    Says(e, appId) && e.envelope.kind == "hello"
  }

  lemma {:induction false} StepOnContents(s: State, e: Event, k: Key, a: string)
    requires Capped(s)
    ensures var t := Step(s, e);
            && (k in t.cache <==> (Brings(e, k) || k in s.cache) && !Loses(s, e, k))
            && (a in t.apps <==> (Greets(e, a) || a in s.apps) && !Drops(s, e, a))
  {
    hide Capped, AppRecorded, MessageRecorded, IsFirstLive, EvictsApp, PopsApp;
    if e.Records? {
      AppHalf(s, e.envelope, e.now, a, k);
      AppRecordedIsCapped(s, e.envelope, e.now);
      MessageHalf(AppRecorded(s, e.envelope, e.now), e.envelope, k);
    }
  }

  // ---- whole runs ----

  ghost predicate LosesAt(events: seq<Event>, i: nat, k: Key) {
    i < |events| && Loses(After(events[..i]), events[i], k)
  }

  ghost predicate DropsAt(events: seq<Event>, i: nat, appId: string) {
    i < |events| && Drops(After(events[..i]), events[i], appId)
  }

  /** The key was recorded as event `i` and has not been lost, then or since. */
  ghost predicate BroughtAt(events: seq<Event>, i: nat, k: Key) {
    i < |events| && Brings(events[i], k) && forall j: nat | i <= j < |events| :: !LosesAt(events, j, k)
  }

  ghost predicate GreetedAt(events: seq<Event>, i: nat, appId: string) {
    i < |events| && Greets(events[i], appId) && forall j: nat | i <= j < |events| :: !DropsAt(events, j, appId)
  }

  lemma {:induction false} AsInFront(events: seq<Event>, i: nat, k: Key, a: string)
    requires i < |events| - 1
    ensures LosesAt(events, i, k) <==> LosesAt(events[..|events| - 1], i, k)
    ensures DropsAt(events, i, a) <==> DropsAt(events[..|events| - 1], i, a)
  {
    hide Loses, Drops, After;
    assert events[..|events| - 1][..i] == events[..i];
  }

  lemma {:induction false} BroughtStep(events: seq<Event>, k: Key)
    requires events != []
    ensures var last := |events| - 1;
            (exists i: nat :: BroughtAt(events, i, k)) <==>
            && (Brings(events[last], k) || exists i: nat :: BroughtAt(events[..last], i, k))
            && !LosesAt(events, last, k)
  {
    hide LosesAt, Brings;
    var last := |events| - 1;
    forall i: nat | i < last ensures LosesAt(events, i, k) <==> LosesAt(events[..last], i, k)
    {
      AsInFront(events, i, k, "");
    }
    if i: nat :| BroughtAt(events, i, k) {
      assert i < last ==> BroughtAt(events[..last], i, k);
    }
    if !LosesAt(events, last, k) {
      if Brings(events[last], k) {
        assert BroughtAt(events, last, k);
      } else if i: nat :| BroughtAt(events[..last], i, k) {
        assert BroughtAt(events, i, k);
      }
    }
  }

  lemma {:induction false} GreetedStep(events: seq<Event>, a: string)
    requires events != []
    ensures var last := |events| - 1;
            (exists i: nat :: GreetedAt(events, i, a)) <==>
            && (Greets(events[last], a) || exists i: nat :: GreetedAt(events[..last], i, a))
            && !DropsAt(events, last, a)
  {
    hide DropsAt, Greets;
    var last := |events| - 1;
    forall i: nat | i < last ensures DropsAt(events, i, a) <==> DropsAt(events[..last], i, a)
    {
      AsInFront(events, i, Key("", ""), a);
    }
    if i: nat :| GreetedAt(events, i, a) {
      assert i < last ==> GreetedAt(events[..last], i, a);
    }
    if !DropsAt(events, last, a) {
      if Greets(events[last], a) {
        assert GreetedAt(events, last, a);
      } else if i: nat :| GreetedAt(events[..last], i, a) {
        assert GreetedAt(events, i, a);
      }
    }
  }

  /** In every run a message type is cached exactly if it has been recorded and since then
      neither its app was forgotten or popped by an eviction, nor its key evicted. */
  lemma {:induction false} CachedExactly(events: seq<Event>, k: Key)
    ensures k in After(events).cache <==> exists i: nat :: BroughtAt(events, i, k)
  {
    hide Step, Loses, Drops, Brings, Capped;
    if events == [] {
      NothingIsListed();
    } else {
      var last := |events| - 1;
      CachedExactly(events[..last], k);
      AlwaysCapped(events[..last]);
      StepOnContents(After(events[..last]), events[last], k, "");
      BroughtStep(events, k);
    }
  }

  /** In every run an app is listed exactly if it has said hello and since then was neither
      forgotten nor the one that an eviction hit. */
  lemma {:induction false} ListedExactly(events: seq<Event>, a: string)
    ensures a in After(events).apps <==> exists i: nat :: GreetedAt(events, i, a)
  {
    hide Step, Loses, Drops, Greets, Capped;
    if events == [] {
      NothingIsListed();
    } else {
      var last := |events| - 1;
      ListedExactly(events[..last], a);
      AlwaysCapped(events[..last]);
      StepOnContents(After(events[..last]), events[last], Key("", ""), a);
      GreetedStep(events, a);
    }
  }

  /** A desktop that is reloaded gets exactly the app's cached messages, each the last that
      was recorded of its type. */
  lemma {:induction false} ReplayedExactly(events: seq<Event>, appId: string, e: Envelope)
    ensures e in CachedMessages(After(events), appId) <==>
            && e.appId == appId
            && LastRecorded(events, KeyOf(e)) == Some(e)
            && exists i: nat :: BroughtAt(events, i, KeyOf(e))
  {
    hide After, BroughtAt, LastRecorded;
    CacheIsLatest(events);
    CachedExactly(events, KeyOf(e));
    if e in CachedMessages(After(events), appId) {
      ReplaysAreLatest(events, appId, e);
      var k :| k in After(events).cache && k.appId == appId && After(events).cache[k] == e;
      LastHasItsKey(events, k);
    }
  }

  /** A message leaves all others alone, unless an app or the oldest key has to go. */
  lemma {:induction false} RecordKeepsTheRest(events: seq<Event>, e: Envelope, now: int, k: Key)
    requires KeyOf(e) in After(events).cache || |After(events).cache| < 2000
    requires !Overflows(After(events), e)
    ensures var s, t := After(events), After(events + [Records(e, now)]);
            && KeyOf(e) in t.cache && t.cache[KeyOf(e)] == e
            && (k != KeyOf(e) ==> (k in t.cache <==> k in s.cache) && (k in t.cache ==> t.cache[k] == s.cache[k]))
  {
    hide After, AppRecorded, MessageRecorded, Capped, IsFirstLive;
    var s := After(events);
    AlwaysCapped(events);
    OneMoreEvent(events, Records(e, now));
    NobodyEvicted(s, e, now);
    AppRecordedIsCapped(s, e, now);
    MessageHalf(AppRecorded(s, e, now), e, k);
    MessageHalf(AppRecorded(s, e, now), e, KeyOf(e));
  }

  // ---- what is known of an app ----

  /** What the step leaves of an app that is listed after it. */
  lemma {:induction false} StepOnKnowledge(s: State, e: Event, a: string)
    requires Capped(s) && a in Step(s, e).apps
    ensures var info := Step(s, e).apps[a];
            if Greets(e, a) then
              && info.connectedAt == info.lastSeen == e.now
              && info.hello == if e.envelope.payload.Parsed? then e.envelope.payload.hello else Hello("", "", "")
            else
              && a in s.apps && info.hello == s.apps[a].hello && info.connectedAt == s.apps[a].connectedAt
              && info.lastSeen == if Says(e, a) then e.now else s.apps[a].lastSeen
  {
    hide AppRecorded, MessageRecorded, Capped;
    if e.Records? {
      AppRecordedIsCapped(s, e.envelope, e.now);
      MessageRecordedIsCapped(AppRecorded(s, e.envelope, e.now), e.envelope);
      RecordOnKnowledge(s, e.envelope, e.now, a);
    }
  }

  lemma {:induction false} RecordOnKnowledge(s: State, e: Envelope, now: int, a: string)
    requires a in AppRecorded(s, e, now).apps
    ensures var info := AppRecorded(s, e, now).apps[a];
            if e.appId == a && e.kind == "hello" then
              && info.connectedAt == info.lastSeen == now
              && info.hello == if e.payload.Parsed? then e.payload.hello else Hello("", "", "")
            else
              && a in s.apps && info.hello == s.apps[a].hello && info.connectedAt == s.apps[a].connectedAt
              && info.lastSeen == if e.appId == a then now else s.apps[a].lastSeen
  {
    hide AppsEvicted;
    if e.kind == "hello" && e.appId !in s.apps {
      EvictionKeepsInfos(AppAdded(s, e, now));
    }
  }

  ghost predicate LastGreets(events: seq<Event>, i: nat, a: string) {
    i < |events| && Greets(events[i], a) && forall j | i < j < |events| :: !Greets(events[j], a)
  }

  ghost predicate LastSays(events: seq<Event>, i: nat, a: string) {
    i < |events| && Says(events[i], a) && forall j | i < j < |events| :: !Says(events[j], a)
  }

  /** In every run what is shown of a listed app is what its last hello said and when, and
      when its last message came. */
  lemma {:induction false} InfoIsLatest(events: seq<Event>, a: string) returns (hello: nat, message: nat)
    requires a in After(events).apps
    ensures LastGreets(events, hello, a) && LastSays(events, message, a)
    ensures var info, e := After(events).apps[a], events[hello];
            && info.connectedAt == e.now && info.lastSeen == events[message].now
            && info.hello == if e.envelope.payload.Parsed? then e.envelope.payload.hello else Hello("", "", "")
  {
    hide Step, Capped, Greets;
    if events == [] {
      NothingIsListed();
      assert false;
    } else {
      var last := |events| - 1;
      var front, e := events[..last], events[last];
      AlwaysCapped(front);
      StepOnKnowledge(After(front), e, a);
      GreetingSays(e, a);
      if Greets(e, a) {
        hello, message := last, last;
      } else {
        hello, message := InfoIsLatest(front, a);
        if Says(e, a) {
          message := last;
        }
      }
    }
  }

  lemma {:induction false} GreetingSays(e: Event, a: string)
    ensures Greets(e, a) ==> Says(e, a)
  {
  }
}
