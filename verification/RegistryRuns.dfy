/** What the registry keeps over every run, and whom its eviction hits. */
module RegistryRuns {
  import opened Pointer
  import opened Registry

  datatype Event =
    | Records(envelope: Envelope, now: int)
    | Forgets(appId: string)
    | Disconnects(appId: string)
    | Registers(appId: string, tx: Sender)
    | Unregisters(appId: string, tx: Sender)

  function Step(s: State, e: Event): State {
    match e
    case Records(envelope, now) => Recorded(s, envelope, now)
    case Forgets(appId) => Forgotten(s, appId)
    case Disconnects(appId) => MarkedDisconnected(s, appId)
    case Registers(appId, tx) => SenderRegistered(s, appId, tx)
    case Unregisters(appId, tx) => SenderUnregistered(s, appId, tx)
  }

  function After(events: seq<Event>): State {
    if events == [] then EMPTY else Step(After(events[..|events| - 1]), events[|events| - 1])
  }

  // ---- the caps ----

  /** The deques name every entry, though they may be longer, and the caps hold. */
  ghost predicate Capped(s: State) {
    && Covers(s.appOrder, s.apps.Keys) && |s.apps| <= MAX_APPS
    && Covers(s.cacheOrder, s.cache.Keys) && |s.cache| <= MAX_CACHE_ENTRIES
  }

  lemma {:induction false} SuffixCovers<K>(order: seq<K>, keys: set<K>, i: nat)
    requires i < |order| && Covers(order, keys) && forall j | 0 <= j < i :: order[j] !in keys
    ensures Covers(order[i + 1..], keys - {order[i]})
  {
    forall k | k in keys - {order[i]} ensures k in order[i + 1..]
    {
      var j :| 0 <= j < |order| && order[j] == k;
      assert order[i + 1..][j - i - 1] == k;
    }
  }

  lemma {:induction false} SubmapSize<K, V>(m: map<K, V>, n: map<K, V>)
    requires m.Keys <= n.Keys
    ensures |m| <= |n|
  {
    var rest := n.Keys - m.Keys;
    assert n.Keys == m.Keys + rest;
    assert |n.Keys| == |m.Keys| + |rest|;
  }

  /** Everything in the first is in the second, unchanged. */
  ghost predicate Within<K, V>(m: map<K, V>, n: map<K, V>) {
    m.Keys <= n.Keys && forall k | k in m :: m[k] == n[k]
  }

  /** A `hello` from an app that is not listed, before the eviction. */
  function AppAdded(s: State, e: Envelope, now: int): State {
    s.(apps := s.apps[e.appId := HelloInfo(e, now)], appOrder := s.appOrder + [e.appId])
  }

  lemma {:induction false} AddedIsCovered(s: State, e: Envelope, now: int)
    requires Capped(s) && e.appId !in s.apps
    ensures var t := AppAdded(s, e, now);
            Covers(t.appOrder, t.apps.Keys) && |t.apps| == |s.apps| + 1 && t.apps.Keys == s.apps.Keys + {e.appId}
  {
    var t := AppAdded(s, e, now);
    assert t.apps.Keys == s.apps.Keys + {e.appId};
    assert t.appOrder[|s.appOrder|] == e.appId;
  }

  lemma {:induction false} AddingApp(s: State, e: Envelope, now: int)
    requires e.kind == "hello" && e.appId !in s.apps
    ensures AppRecorded(s, e, now) == AppsEvicted(AppAdded(s, e, now))
  {
    hide AppsEvicted;
  }

  /** At the cap a new app costs the first live id of the deque, its own included. */
  lemma {:induction false} AddingAtTheCap(s: State, e: Envelope, now: int) returns (i: nat)
    requires Capped(s) && |s.apps| == MAX_APPS && e.kind == "hello" && e.appId !in s.apps
    ensures var t := AppAdded(s, e, now);
            && i < |t.appOrder| && t.appOrder[i] in t.apps && (forall j | 0 <= j < i :: t.appOrder[j] !in t.apps)
            && AppRecorded(s, e, now) == t.(apps := t.apps - {t.appOrder[i]}, appOrder := t.appOrder[i + 1..],
                                            cache := WithoutApps(t.cache, t.appOrder[..i + 1]))
  {
    hide AppsEvicted, AppRecorded, WithoutApps, HelloInfo;
    AddedIsCovered(s, e, now);
    AddingApp(s, e, now);
    var t := AppAdded(s, e, now);
    assert e.appId in t.apps.Keys;
    i := FirstLive(t.appOrder, t.apps.Keys);
    AppEviction(t, i);
  }

  lemma {:induction false} AppRecordedIsCapped(s: State, e: Envelope, now: int)
    requires Capped(s)
    ensures Capped(AppRecorded(s, e, now)) && Within(AppRecorded(s, e, now).cache, s.cache)
    ensures AppRecorded(s, e, now).cacheOrder == s.cacheOrder && AppRecorded(s, e, now).senders == s.senders
  {
    if e.kind == "hello" && e.appId !in s.apps {
      hide AppRecorded, AppsEvicted, HelloInfo;
      AddedIsCovered(s, e, now);
      AddingApp(s, e, now);
      var t := AppAdded(s, e, now);
      if |s.apps| < MAX_APPS {
        EvictionStep(t);
      } else {
        var i := AddingAtTheCap(s, e, now);
        SuffixCovers(t.appOrder, t.apps.Keys, i);
        assert (t.apps - {t.appOrder[i]}).Keys == t.apps.Keys - {t.appOrder[i]};
        SubmapSize(AppRecorded(s, e, now).cache, s.cache);
      }
    } else {
      var t := AppRecorded(s, e, now);
      assert t.apps.Keys == s.apps.Keys;
      SubmapSize(t.apps, s.apps);
    }
  }

  /** A message under a new key, before the eviction. */
  function MessageAdded(s: State, e: Envelope): State {
    s.(cache := s.cache[KeyOf(e) := e], cacheOrder := s.cacheOrder + [KeyOf(e)])
  }

  lemma {:induction false} AddingMessage(s: State, e: Envelope)
    requires KeyOf(e) !in s.cache
    ensures var t := MessageAdded(s, e);
            && MessageRecorded(s, e) == CacheEvicted(t)
            && (|t.cache| <= MAX_CACHE_ENTRIES ==> CacheEvicted(t) == t)
            && t.cache.Keys == s.cache.Keys + {KeyOf(e)} && |t.cache| == |s.cache| + 1
  {
    hide KeyOf;
    assert MessageAdded(s, e).cache.Keys == s.cache.Keys + {KeyOf(e)};
  }

  lemma {:induction false} AddedMessageIsCovered(s: State, e: Envelope)
    requires Capped(s)
    ensures Covers(MessageAdded(s, e).cacheOrder, s.cache.Keys + {KeyOf(e)})
  {
    hide KeyOf;
    var t := MessageAdded(s, e);
    assert t.cacheOrder[|s.cacheOrder|] == KeyOf(e);
  }

  lemma {:induction false} EvictedMessage(t: State)
    requires Covers(t.cacheOrder, t.cache.Keys) && |t.cache| == MAX_CACHE_ENTRIES + 1
    ensures var u := CacheEvicted(t);
            && Covers(u.cacheOrder, u.cache.Keys) && |u.cache| == MAX_CACHE_ENTRIES
            && Within(u.cache, t.cache) && u == t.(cache := u.cache, cacheOrder := u.cacheOrder)
  {
    hide CacheEvicted;
    assert t.cache.Keys != {};
    var i := FirstLive(t.cacheOrder, t.cache.Keys);
    CacheEviction(t, i);
    SuffixCovers(t.cacheOrder, t.cache.Keys, i);
    assert (t.cache - {t.cacheOrder[i]}).Keys == t.cache.Keys - {t.cacheOrder[i]};
  }

  lemma {:induction false} MessageRecordedIsCapped(s: State, e: Envelope)
    requires Capped(s)
    ensures var t := MessageRecorded(s, e);
            && Capped(t) && t.apps == s.apps && t.appOrder == s.appOrder && t.senders == s.senders
            && Within(t.cache, s.cache[KeyOf(e) := e])
  {
    hide CacheEvicted, KeyOf;
    if KeyOf(e) in s.cache {
      assert s.cache[KeyOf(e) := e].Keys == s.cache.Keys;
      SubmapSize(s.cache[KeyOf(e) := e], s.cache);
    } else {
      hide MessageRecorded;
      AddingMessage(s, e);
      AddedMessageIsCovered(s, e);
      if |s.cache| == MAX_CACHE_ENTRIES {
        EvictedMessage(MessageAdded(s, e));
      }
    }
  }

  lemma {:induction false} StepIsCapped(s: State, e: Event)
    requires Capped(s)
    ensures Capped(Step(s, e))
  {
    if e.Records? {
      hide AppRecorded, MessageRecorded;
      AppRecordedIsCapped(s, e.envelope, e.now);
      MessageRecordedIsCapped(AppRecorded(s, e.envelope, e.now), e.envelope);
    } else {
      var t := Step(s, e);
      SubmapSize(t.apps, s.apps);
      SubmapSize(t.cache, s.cache);
    }
  }

  /** In every run, forgetting included, the deques name every entry and the caps hold. */
  lemma {:induction false} AlwaysCapped(events: seq<Event>)
    ensures Capped(After(events))
  {
    hide Step, Capped;
    if events == [] {
      EmptyIsCapped();
    } else {
      AlwaysCapped(events[..|events| - 1]);
      StepIsCapped(After(events[..|events| - 1]), events[|events| - 1]);
    }
  }

  lemma {:induction false} EmptyIsCapped()
    ensures Capped(EMPTY)
  {
  }

  // ---- the cache ----

  /** The envelope recorded last under the key. */
  function LastRecorded(events: seq<Event>, k: Key): Option<Envelope> {
    if events == [] then None
    else
      var e := events[|events| - 1];
      if e.Records? && KeyOf(e.envelope) == k then Some(e.envelope)
      else LastRecorded(events[..|events| - 1], k)
  }

  ghost predicate Latest(events: seq<Event>, cache: map<Key, Envelope>) {
    forall k | k in cache :: LastRecorded(events, k) == Some(cache[k])
  }

  lemma {:induction false} LatestAfterRecord(events: seq<Event>, cache: map<Key, Envelope>, next: map<Key, Envelope>)
    requires events != [] && events[|events| - 1].Records? && Latest(events[..|events| - 1], cache)
    requires var e := events[|events| - 1].envelope; Within(next, cache[KeyOf(e) := e])
    ensures Latest(events, next)
  {
    hide KeyOf;
  }

  lemma {:induction false} LatestAfterOther(events: seq<Event>, cache: map<Key, Envelope>, next: map<Key, Envelope>)
    requires events != [] && !events[|events| - 1].Records? && Latest(events[..|events| - 1], cache)
    requires Within(next, cache)
    ensures Latest(events, next)
  {
  }

  lemma {:induction false} RecordedCache(s: State, e: Envelope, now: int)
    requires Capped(s)
    ensures Within(Recorded(s, e, now).cache, s.cache[KeyOf(e) := e])
  {
    hide AppRecorded, MessageRecorded, Capped, KeyOf;
    AppRecordedIsCapped(s, e, now);
    MessageRecordedIsCapped(AppRecorded(s, e, now), e);
  }

  lemma {:induction false} OtherCache(s: State, e: Event)
    requires !e.Records?
    ensures Within(Step(s, e).cache, s.cache)
  {
  }

  lemma {:induction false} CacheIsLatest(events: seq<Event>)
    ensures Latest(events, After(events).cache)
  {
    if events != [] {
      hide Step, Latest, Within, Capped;
      var s, e := After(events[..|events| - 1]), events[|events| - 1];
      CacheIsLatest(events[..|events| - 1]);
      if e.Records? {
        AlwaysCapped(events[..|events| - 1]);
        RecordedCache(s, e.envelope, e.now);
        StepOfRecord(s, e.envelope, e.now);
        LatestAfterRecord(events, s.cache, After(events).cache);
      } else {
        OtherCache(s, e);
        LatestAfterOther(events, s.cache, After(events).cache);
      }
    }
  }

  /** In every run, what the registry replays for an app are that app's own envelopes, each
      the last that was recorded of its type. */
  lemma {:induction false} ReplaysAreLatest(events: seq<Event>, appId: string, e: Envelope)
    requires e in CachedMessages(After(events), appId)
    ensures e.appId == appId && LastRecorded(events, KeyOf(e)) == Some(e)
  {
    hide After;
    CacheIsLatest(events);
    var k :| k in After(events).cache && k.appId == appId && After(events).cache[k] == e;
    LastHasItsKey(events, k);
  }

  lemma {:induction false} LastHasItsKey(events: seq<Event>, k: Key)
    ensures LastRecorded(events, k).Some? ==> KeyOf(LastRecorded(events, k).value) == k
  {
    if events != [] {
      LastHasItsKey(events[..|events| - 1], k);
    }
  }

  // ---- the flag ----

  /** A message of the app goes to the registry. */
  predicate Says(e: Event, appId: string) {
    e.Records? && e.envelope.appId == appId
  }

  /** The app was marked as disconnected and has sent nothing since. */
  ghost predicate Silenced(events: seq<Event>, appId: string) {
    exists i :: 0 <= i < |events| && events[i] == Disconnects(appId)
                && forall j | i < j < |events| :: !Says(events[j], appId)
  }

  lemma {:induction false} EvictionKeepsInfos(s: State)
    ensures Within(AppsEvicted(s).apps, s.apps)
    decreases |s.appOrder|
  {
    if |s.apps| > MAX_APPS && s.appOrder != [] {
      EvictionKeepsInfos(AppPopped(s));
    }
  }

  lemma {:induction false} CacheEvictionKeepsApps(s: State)
    ensures CacheEvicted(s).apps == s.apps
    decreases |s.cacheOrder|
  {
    if |s.cache| > MAX_CACHE_ENTRIES && s.cacheOrder != [] {
      CacheEvictionKeepsApps(CachePopped(s));
    }
  }

  lemma {:induction false} RecordOnInfo(s: State, e: Envelope, now: int, appId: string)
    requires appId in Recorded(s, e, now).apps
    ensures var info := Recorded(s, e, now).apps[appId];
            if e.appId == appId then info.connected && (e.kind == "hello" || appId in s.apps)
            else appId in s.apps && info == s.apps[appId]
  {
    hide AppsEvicted, CacheEvicted, KeyOf;
    var t := AppRecorded(s, e, now);
    CacheEvictionKeepsApps(t.(cache := t.cache[KeyOf(e) := e], cacheOrder := t.cacheOrder + [KeyOf(e)]));
    if e.kind == "hello" && e.appId !in s.apps {
      EvictionKeepsInfos(AppAdded(s, e, now));
    }
  }

  /** What a step does to what is known about an app that is listed after it. */
  lemma {:induction false} StepOnInfo(s: State, e: Event, appId: string)
    requires appId in Step(s, e).apps
    ensures var info := Step(s, e).apps[appId];
            if Says(e, appId) then info.connected && (e.envelope.kind == "hello" || appId in s.apps)
            else appId in s.apps &&
                 if e == Disconnects(appId) then !info.connected else info == s.apps[appId]
  {
    hide Recorded;
    if e.Records? {
      RecordOnInfo(s, e.envelope, e.now, appId);
    }
  }

  lemma {:induction false} SilencedStep(events: seq<Event>, appId: string)
    requires events != []
    ensures var front, e := events[..|events| - 1], events[|events| - 1];
            Silenced(events, appId) <==>
            e == Disconnects(appId) || (!Says(e, appId) && Silenced(front, appId))
  {
    var last := |events| - 1;
    var front, e := events[..last], events[last];
    if Silenced(events, appId) && e != Disconnects(appId) {
      var i :| 0 <= i < |events| && events[i] == Disconnects(appId)
               && forall j | i < j < |events| :: !Says(events[j], appId);
      assert front[i] == Disconnects(appId);
    }
    if !Says(e, appId) && Silenced(front, appId) {
      var i :| 0 <= i < |front| && front[i] == Disconnects(appId)
               && forall j | i < j < |front| :: !Says(front[j], appId);
      assert events[i] == Disconnects(appId);
      forall j | i < j < |events| ensures !Says(events[j], appId)
      {
        if j < last {
          assert events[j] == front[j];
        }
      }
    }
  }

  /** In every run an app that is listed is shown as connected exactly if it has not been
      marked as disconnected since its last message. */
  lemma {:induction false} ConnectedExactly(events: seq<Event>, appId: string)
    requires appId in After(events).apps
    ensures After(events).apps[appId].connected <==> !Silenced(events, appId)
  {
    hide Step, Silenced;
    if events == [] {
      NothingIsListed();
    } else {
      var front, e := events[..|events| - 1], events[|events| - 1];
      SilencedStep(events, appId);
      StepOnInfo(After(front), e, appId);
      if appId in After(front).apps {
        ConnectedExactly(front, appId);
      }
    }
  }

  // ---- whom eviction hits ----

  /** An old copy of the key lies in front of every key that is still there. */
  ghost predicate StaleFirst<K>(order: seq<K>, keys: set<K>, k: K) {
    exists j :: 0 <= j < |order| && order[j] == k && forall m | 0 <= m < j :: order[m] !in keys
  }

  /** Some old id of the app lies in front of every app that is still listed. */
  ghost predicate StaleInFront(s: State, appId: string) {
    StaleFirst(s.appOrder, s.apps.Keys, appId)
  }

  /** A new app that arrives at the cap is itself evicted exactly if one of its own old ids
      is the first that the eviction meets; otherwise it is listed at the back. */
  lemma {:induction false} NewcomerEvictedExactly(events: seq<Event>, e: Envelope, now: int)
    requires var s := After(events); |s.apps| == MAX_APPS && e.kind == "hello" && e.appId !in s.apps
    ensures var s, t := After(events), After(events + [Records(e, now)]);
            && (e.appId !in t.apps <==> StaleInFront(s, e.appId))
            && |t.apps| == MAX_APPS
  {
    hide MessageRecorded, AppRecorded, After, WithoutApps, HelloInfo;
    var s := After(events);
    AlwaysCapped(events);
    OneMoreEvent(events, Records(e, now));
    var i := AddingAtTheCap(s, e, now);
    var added := AppAdded(s, e, now);
    AddedIsCovered(s, e, now);
    AppRecordedIsCapped(s, e, now);
    MessageRecordedIsCapped(AppRecorded(s, e, now), e);
    assert (added.apps - {added.appOrder[i]}).Keys == added.apps.Keys - {added.appOrder[i]};
    FirstLiveIsNewcomer(s.appOrder, s.apps.Keys, e.appId, i);
  }

  /** So is a message under a new key that arrives at a full cache, if an old copy of its
      key is the first that the eviction meets. Old copies stay behind not only when an app
      is forgotten but also when one is evicted. */
  lemma {:induction false} NewMessageEvictedExactly(events: seq<Event>, e: Envelope, now: int)
    requires var s := AppRecorded(After(events), e, now); |s.cache| == MAX_CACHE_ENTRIES && KeyOf(e) !in s.cache
    ensures var s, t := AppRecorded(After(events), e, now), After(events + [Records(e, now)]);
            && (KeyOf(e) !in t.cache <==> StaleFirst(s.cacheOrder, s.cache.Keys, KeyOf(e)))
            && |t.cache| == MAX_CACHE_ENTRIES
  {
    hide MessageRecorded, AppRecorded, After, CacheEvicted, KeyOf, StaleFirst;
    AlwaysCapped(events);
    OneMoreEvent(events, Records(e, now));
    AppRecordedIsCapped(After(events), e, now);
    var s := AppRecorded(After(events), e, now);
    AddingMessage(s, e);
    AddedMessageIsCovered(s, e);
    var added := MessageAdded(s, e);
    var i := FirstLive(added.cacheOrder, added.cache.Keys);
    CacheEviction(added, i);
    EvictedMessage(added);
    FirstLiveIsNewcomer(s.cacheOrder, s.cache.Keys, KeyOf(e), i);
  }

  lemma {:induction false} OneMoreEvent(events: seq<Event>, e: Event)
    ensures After(events + [e]) == Step(After(events), e)
  {
    assert (events + [e])[..|events|] == events;
  }

  lemma {:induction false} FirstLiveIsNewcomer<K>(order: seq<K>, keys: set<K>, k: K, i: nat)
    requires Covers(order, keys) && keys != {} && k !in keys
    requires i < |order + [k]| && (order + [k])[i] in keys + {k}
    requires forall j | 0 <= j < i :: (order + [k])[j] !in keys + {k}
    ensures (order + [k])[i] == k <==> StaleFirst(order, keys, k)
  {
    var at := SomeListed(order, keys);
    assert (order + [k])[at] == order[at];
    assert i <= at;
    assert (order + [k])[i] == order[i];
    forall j | 0 <= j < i ensures order[j] !in keys && order[j] != k
    {
      assert (order + [k])[j] == order[j];
    }
  }

  lemma {:induction false} SomeListed<K>(order: seq<K>, keys: set<K>) returns (i: nat)
    requires Covers(order, keys) && keys != {}
    ensures i < |order| && order[i] in keys
  {
    var k :| k in keys;
    i :| 0 <= i < |order| && order[i] == k;
  }

  /** Forget the oldest app of a full registry, let another one in, and the forgotten app,
      when it says hello again, is registered and evicted at once. */
  lemma {:induction false} ForgottenAppCannotReturn(events: seq<Event>, b: Envelope, a: Envelope, now: int)
    requires var s := After(events);
             && |s.apps| == MAX_APPS && s.appOrder != [] && a.appId == s.appOrder[0] && a.appId in s.apps
             && b.appId !in s.apps && a.kind == b.kind == "hello"
    ensures a.appId !in After(events + [Forgets(a.appId)] + [Records(b, now)] + [Records(a, now)]).apps
  {
    hide MessageRecorded, AppRecorded, After, HelloInfo, WithoutApp;
    var s := After(events);
    var one := events + [Forgets(a.appId)];
    var two := one + [Records(b, now)];
    OneMoreEvent(events, Forgets(a.appId));
    OneMoreEvent(one, Records(b, now));
    var t := After(one);
    assert t.apps.Keys == s.apps.Keys - {a.appId};
    AlwaysCapped(one);
    AddingBelowTheCap(t, b, now);
    var u := After(two);
    assert u.appOrder[0] == a.appId && StaleInFront(u, a.appId);
    NewcomerEvictedExactly(two, a, now);
  }

  /** An app that is not listed becomes listed by its own `hello` and by nothing else, and
      by that exactly if it is not evicted at once. */
  lemma {:induction false} BecomesListedExactly(events: seq<Event>, e: Event, appId: string)
    requires appId !in After(events).apps
    ensures appId in After(events + [e]).apps <==>
            && e.Records? && e.envelope.kind == "hello" && e.envelope.appId == appId
            && (|After(events).apps| < MAX_APPS || !StaleInFront(After(events), appId))
  {
    hide MessageRecorded, AppRecorded, After, HelloInfo, StaleInFront;
    var s := After(events);
    AlwaysCapped(events);
    OneMoreEvent(events, e);
    if e.Records? && e.envelope.kind == "hello" && e.envelope.appId == appId {
      if |s.apps| < MAX_APPS {
        AddingBelowTheCap(s, e.envelope, e.now);
      } else {
        NewcomerEvictedExactly(events, e.envelope, e.now);
      }
    } else if appId in After(events + [e]).apps {
      StepOnInfo(s, e, appId);
    }
  }

  function Id(i: nat): string {
    seq(i, _ => 'x')
  }

  function Greeting(i: nat): Envelope {
    Envelope("hello", Id(i), 0, Parsed(DEFAULT_HELLO))
  }

  /** As many apps say hello, one after the other. */
  function Greetings(n: nat): seq<Event> {
    if n == 0 then [] else Greetings(n - 1) + [Records(Greeting(n - 1), 0)]
  }

  lemma {:induction false} GreetingsAreListed(n: nat)
    requires n <= MAX_APPS
    ensures var s := After(Greetings(n));
            && |s.apps| == n && (forall id | id in s.apps :: |id| < n)
            && (n > 0 ==> s.appOrder != [] && s.appOrder[0] == Id(0) && Id(0) in s.apps)
  {
    hide After, Recorded;
    if n == 0 {
      NothingIsListed();
    } else {
      var front, e := Greetings(n - 1), Greeting(n - 1);
      var s := After(front);
      GreetingsAreListed(n - 1);
      OneMoreEvent(front, Records(e, 0));
      AlwaysCapped(front);
      AddingBelowTheCap(s, e, 0);
      var t := After(Greetings(n));
      assert t.apps.Keys == s.apps.Keys + {e.appId};
      assert t.appOrder[0] == if n == 1 then e.appId else s.appOrder[0] by {
        if n == 1 {
          FirstArrivalIsFirst(front, e);
        }
      }
    }
  }

  lemma {:induction false} NothingIsListed()
    ensures After([]) == EMPTY
  {
  }

  lemma {:induction false} FirstArrivalIsFirst(front: seq<Event>, e: Envelope)
    requires front == []
    ensures After(front).appOrder == []
  {
  }

  /** That happens: 64 apps connect, the first is forgotten, a 65th comes, and the first,
      though it says hello, is not listed. */
  lemma {:induction false} ForgottenAppIsShutOut()
    ensures Id(0) in After(Greetings(MAX_APPS)).apps
    ensures Id(0) !in After(Greetings(MAX_APPS) + [Forgets(Id(0))] + [Records(Greeting(MAX_APPS), 0)]
                            + [Records(Greeting(0), 0)]).apps
  {
    hide After;
    GreetingsAreListed(MAX_APPS);
    ForgottenAppCannotReturn(Greetings(MAX_APPS), Greeting(MAX_APPS), Greeting(0), 0);
  }

  lemma {:induction false} AddingBelowTheCap(s: State, e: Envelope, now: int)
    requires Capped(s) && |s.apps| < MAX_APPS && e.kind == "hello" && e.appId !in s.apps
    ensures var t := Recorded(s, e, now);
            && t.apps.Keys == s.apps.Keys + {e.appId} && |t.apps| == |s.apps| + 1
            && t.appOrder == s.appOrder + [e.appId]
  {
    hide MessageRecorded, AppRecorded, HelloInfo, AppsEvicted;
    AddedIsCovered(s, e, now);
    AddingApp(s, e, now);
    EvictionStep(AppAdded(s, e, now));
    AppRecordedIsCapped(s, e, now);
    MessageRecordedIsCapped(AppRecorded(s, e, now), e);
  }

  function Note(i: nat): Envelope {
    Envelope(Id(i), "y", 0, Other(""))
  }

  /** The first app says hello and is forgotten; then another sends as many kinds of notes. */
  function Notes(n: nat): seq<Event> {
    if n == 0 then Greetings(1) + [Forgets(Id(0))] else Notes(n - 1) + [Records(Note(n - 1), 0)]
  }

  ghost predicate Noted(s: State, n: nat) {
    && s.apps == map[] && |s.cache| == n
    && (forall k | k in s.cache :: k.appId == "y" && |k.kind| < n)
    && s.cacheOrder != [] && s.cacheOrder[0] == KeyOf(Greeting(0))
  }

  lemma {:induction false} NotesAreCached(n: nat)
    requires n <= MAX_CACHE_ENTRIES
    ensures Noted(After(Notes(n)), n)
  {
    hide After, Noted, Recorded, Forgotten;
    if n == 0 {
      OneMoreEvent(Greetings(1), Forgets(Id(0)));
      OneMoreEvent([], Records(Greeting(0), 0));
      NothingIsListed();
      assert Greetings(1) == [] + [Records(Greeting(0), 0)];
      ForgettingClears();
    } else {
      NotesAreCached(n - 1);
      OneMoreEvent(Notes(n - 1), Records(Note(n - 1), 0));
      OneMoreNote(After(Notes(n - 1)), n - 1);
    }
  }

  lemma {:induction false} ForgettingClears()
    ensures Noted(Forgotten(Recorded(EMPTY, Greeting(0), 0), Id(0)), 0)
  {
  }

  lemma {:induction false} NoteIsNew(s: State, n: nat)
    requires Noted(s, n)
    ensures AppRecorded(s, Note(n), 0) == s && KeyOf(Note(n)) !in s.cache
  {
    assert n > 0 ==> Id(n)[0] == 'x';
    assert "hello"[0] == 'h' && |"hello"| == 5;
  }

  lemma {:induction false} OneMoreNote(s: State, n: nat)
    requires Noted(s, n) && n < MAX_CACHE_ENTRIES
    ensures Noted(Recorded(s, Note(n), 0), n + 1)
  {
    hide CacheEvicted, MessageRecorded, AppRecorded;
    NoteIsNew(s, n);
    AddingMessage(s, Note(n));
    assert Recorded(s, Note(n), 0) == MessageAdded(s, Note(n));
  }

  /** That happens too: a forgotten app comes back to a full cache, and its hello, just
      recorded, is the entry that goes. */
  lemma {:induction false} ReturningHelloIsLost()
    ensures var after := After(Notes(MAX_CACHE_ENTRIES) + [Records(Greeting(0), 0)]);
            KeyOf(Greeting(0)) !in after.cache && |after.cache| == MAX_CACHE_ENTRIES
  {
    hide After, Noted;
    NotesAreCached(MAX_CACHE_ENTRIES);
    StaleHello(After(Notes(MAX_CACHE_ENTRIES)));
    NewMessageEvictedExactly(Notes(MAX_CACHE_ENTRIES), Greeting(0), 0);
  }

  lemma {:induction false} StaleHello(s: State)
    requires Noted(s, MAX_CACHE_ENTRIES)
    ensures var a := AppRecorded(s, Greeting(0), 0); var k := KeyOf(Greeting(0));
            |a.cache| == MAX_CACHE_ENTRIES && k !in a.cache && StaleFirst(a.cacheOrder, a.cache.Keys, k)
  {
  }

  // ---- first in, first out ----

  predicate NeverForgets(events: seq<Event>) {
    forall i | 0 <= i < |events| :: !events[i].Forgets?
  }

  /** The apps in the order in which they were registered. */
  function Arrivals(events: seq<Event>): seq<string> {
    if events == [] then []
    else
      var front, e := events[..|events| - 1], events[|events| - 1];
      if e.Records? && e.envelope.kind == "hello" && e.envelope.appId !in After(front).apps
      then Arrivals(front) + [e.envelope.appId]
      else Arrivals(front)
  }

  function Latest64(arrivals: seq<string>): seq<string> {
    if |arrivals| <= MAX_APPS then arrivals else arrivals[|arrivals| - MAX_APPS..]
  }

  predicate Distinct(s: seq<string>) {
    forall i, j | 0 <= i < j < |s| :: s[i] != s[j]
  }

  /** The deque lists exactly the apps, each once. */
  ghost predicate Lists(order: seq<string>, ids: set<string>) {
    Distinct(order) && forall id :: id in order <==> id in ids
  }

  ghost predicate Exact(s: State) {
    Lists(s.appOrder, s.apps.Keys)
  }

  lemma {:induction false} ListSize(order: seq<string>, ids: set<string>)
    requires Lists(order, ids)
    ensures |order| == |ids|
  {
    if order == [] {
      assert forall id :: id !in ids;
      assert ids == {};
    } else {
      ListDrops(order, ids);
      ListSize(order[1..], ids - {order[0]});
    }
  }

  lemma {:induction false} ListDrops(order: seq<string>, ids: set<string>)
    requires Lists(order, ids) && order != []
    ensures Lists(order[1..], ids - {order[0]}) && order[0] in ids
  {
    assert order == [order[0]] + order[1..];
  }

  lemma {:induction false} ListAppends(order: seq<string>, ids: set<string>, id: string)
    requires Lists(order, ids) && id !in ids
    ensures Lists(order + [id], ids + {id})
  {
  }

  lemma {:induction false} ExactGrows(s: State, e: Envelope, now: int)
    requires Capped(s) && Exact(s) && e.kind == "hello" && e.appId !in s.apps
    ensures var t := Recorded(s, e, now);
            && Exact(t)
            && t.appOrder == if |s.appOrder| < MAX_APPS then s.appOrder + [e.appId] else s.appOrder[1..] + [e.appId]
  {
    hide MessageRecorded, AppRecorded, HelloInfo, Recorded, WithoutApps, Lists, Covers;
    ListSize(s.appOrder, s.apps.Keys);
    if |s.apps| < MAX_APPS {
      AddingBelowTheCap(s, e, now);
      ListAppends(s.appOrder, s.apps.Keys, e.appId);
    } else {
      ExactAtTheCap(s, e, now);
      ListDrops(s.appOrder, s.apps.Keys);
      ListAppends(s.appOrder[1..], s.apps.Keys - {s.appOrder[0]}, e.appId);
    }
  }

  lemma {:induction false} OldestIsEvicted(s: State, e: Envelope, now: int)
    requires |s.apps| == MAX_APPS && e.appId !in s.apps && s.appOrder != [] && s.appOrder[0] in s.apps
    ensures var t := AppsEvicted(AppAdded(s, e, now));
            && t.appOrder == s.appOrder[1..] + [e.appId]
            && t.apps.Keys == s.apps.Keys - {s.appOrder[0]} + {e.appId}
  {
    hide AppsEvicted, WithoutApps, HelloInfo;
    var added := AppAdded(s, e, now);
    assert added.apps.Keys == s.apps.Keys + {e.appId};
    assert |added.apps.Keys| == |s.apps.Keys| + 1;
    assert added.appOrder[0] == s.appOrder[0];
    AppEviction(added, 0);
    assert (added.apps - {s.appOrder[0]}).Keys == s.apps.Keys - {s.appOrder[0]} + {e.appId};
  }

  lemma {:induction false} ExactAtTheCap(s: State, e: Envelope, now: int)
    requires Capped(s) && Exact(s) && |s.apps| == |s.appOrder| == MAX_APPS && e.kind == "hello" && e.appId !in s.apps
    ensures var t := Recorded(s, e, now);
            && t.appOrder == s.appOrder[1..] + [e.appId]
            && t.apps.Keys == s.apps.Keys - {s.appOrder[0]} + {e.appId}
  {
    hide MessageRecorded, AppRecorded, AppsEvicted, AppAdded, Recorded, Lists, Capped;
    ListDrops(s.appOrder, s.apps.Keys);
    RecordedApps(s, e, now);
    AddingApp(s, e, now);
    OldestIsEvicted(s, e, now);
  }

  lemma {:induction false} RecordedApps(s: State, e: Envelope, now: int)
    requires Capped(s)
    ensures var t := Recorded(s, e, now);
            t.apps == AppRecorded(s, e, now).apps && t.appOrder == AppRecorded(s, e, now).appOrder
  {
    hide MessageRecorded, AppRecorded;
    AppRecordedIsCapped(s, e, now);
    MessageRecordedIsCapped(AppRecorded(s, e, now), e);
  }

  lemma {:induction false} ExactStays(s: State, e: Event)
    requires Capped(s) && !e.Forgets?
    requires e.Records? ==> e.envelope.kind != "hello" || e.envelope.appId in s.apps
    ensures Step(s, e).apps.Keys == s.apps.Keys && Step(s, e).appOrder == s.appOrder
  {
    if e.Records? {
      RecordedApps(s, e.envelope, e.now);
    }
  }

  lemma {:induction false} LatestMoves(arrivals: seq<string>, id: string)
    ensures var l := Latest64(arrivals);
            Latest64(arrivals + [id]) == if |l| < MAX_APPS then l + [id] else l[1..] + [id]
  {
  }

  /** As long as no app is forgotten, the registry lists exactly the 64 apps registered
      last, so each arrival beyond them drops the oldest and never itself. */
  lemma {:induction false} FirstInFirstOut(events: seq<Event>)
    requires NeverForgets(events)
    ensures Exact(After(events)) && After(events).appOrder == Latest64(Arrivals(events))
  {
    hide Step, Lists, Latest64, Capped;
    if events == [] {
      EmptyIsExact();
    } else {
      var front, e := events[..|events| - 1], events[|events| - 1];
      FirstInFirstOut(front);
      AlwaysCapped(front);
      LastIsNoForget(events);
      if e.Records? && e.envelope.kind == "hello" && e.envelope.appId !in After(front).apps {
        ExactGrows(After(front), e.envelope, e.now);
        StepOfRecord(After(front), e.envelope, e.now);
        LatestMoves(Arrivals(front), e.envelope.appId);
      } else {
        ExactStays(After(front), e);
      }
    }
  }

  lemma {:induction false} LastIsNoForget(events: seq<Event>)
    requires NeverForgets(events) && events != []
    ensures !events[|events| - 1].Forgets? && NeverForgets(events[..|events| - 1])
  {
  }

  lemma {:induction false} StepOfRecord(s: State, e: Envelope, now: int)
    ensures Step(s, Records(e, now)) == Recorded(s, e, now)
  {
  }

  lemma {:induction false} EmptyIsExact()
    ensures Exact(EMPTY) && Latest64([]) == []
  {
  }
}
