/** The desktop server's registry: apps and their latest messages under hard caps, with
    insertion deques that are allowed to go stale, and the live senders. */
module Registry {
  import opened Pointer

  const MAX_APPS := 64
  const MAX_CACHE_ENTRIES := 2000

  datatype Hello = Hello(appName: string, platform: string, sdkVersion: string)

  /** A `hello` payload that does not parse counts as the default one. */
  datatype Payload = Parsed(hello: Hello) | Other(text: string)

  const DEFAULT_HELLO := Hello("", "", "")

  datatype Envelope = Envelope(kind: string, appId: string, ts: int, payload: Payload)

  datatype AppInfo = AppInfo(hello: Hello, connectedAt: int, lastSeen: int, connected: bool)

  datatype Key = Key(appId: string, kind: string)

  /** A sender is known by its connection's channel. */
  type Sender = nat

  datatype State = State(
    apps: map<string, AppInfo>,
    cache: map<Key, Envelope>,
    appOrder: seq<string>,
    cacheOrder: seq<Key>,
    senders: map<string, Sender>)

  const EMPTY := State(map[], map[], [], [], map[])

  function KeyOf(e: Envelope): Key {
    Key(e.appId, e.kind)
  }

  function WithoutApp(cache: map<Key, Envelope>, appId: string): map<Key, Envelope> {
    map k | k in cache && k.appId != appId :: cache[k]
  }

  function AppPopped(s: State): State
    requires s.appOrder != []
  {
    s.(apps := s.apps - {s.appOrder[0]}, cache := WithoutApp(s.cache, s.appOrder[0]), appOrder := s.appOrder[1..])
  }

  function AppsEvicted(s: State): State
    decreases |s.appOrder|
  {
    if |s.apps| <= MAX_APPS || s.appOrder == [] then s else AppsEvicted(AppPopped(s))
  }

  function CachePopped(s: State): State
    requires s.cacheOrder != []
  {
    s.(cache := s.cache - {s.cacheOrder[0]}, cacheOrder := s.cacheOrder[1..])
  }

  function CacheEvicted(s: State): State
    decreases |s.cacheOrder|
  {
    if |s.cache| <= MAX_CACHE_ENTRIES || s.cacheOrder == [] then s else CacheEvicted(CachePopped(s))
  }

  function HelloInfo(e: Envelope, now: int): AppInfo {
    AppInfo(if e.payload.Parsed? then e.payload.hello else DEFAULT_HELLO, now, now, true)
  }

  /** The first half of `record`: the app. */
  function AppRecorded(s: State, e: Envelope, now: int): State {
    if e.kind == "hello" then
      var added := s.(apps := s.apps[e.appId := HelloInfo(e, now)]);
      if e.appId in s.apps then added
      else AppsEvicted(added.(appOrder := s.appOrder + [e.appId]))
    else if e.appId in s.apps then
      s.(apps := s.apps[e.appId := s.apps[e.appId].(lastSeen := now, connected := true)])
    else s
  }

  /** The second half: the cache. */
  function MessageRecorded(s: State, e: Envelope): State {
    var added := s.(cache := s.cache[KeyOf(e) := e]);
    if KeyOf(e) in s.cache then added
    else CacheEvicted(added.(cacheOrder := s.cacheOrder + [KeyOf(e)]))
  }

  function Recorded(s: State, e: Envelope, now: int): State {
    MessageRecorded(AppRecorded(s, e, now), e)
  }

  function Forgotten(s: State, appId: string): State {
    s.(apps := s.apps - {appId}, cache := WithoutApp(s.cache, appId))
  }

  function MarkedDisconnected(s: State, appId: string): State {
    if appId in s.apps then s.(apps := s.apps[appId := s.apps[appId].(connected := false)]) else s
  }

  function SenderRegistered(s: State, appId: string, tx: Sender): State {
    s.(senders := s.senders[appId := tx])
  }

  /** Only the very sender that is registered is removed. */
  function SenderUnregistered(s: State, appId: string, tx: Sender): State {
    if appId in s.senders && s.senders[appId] == tx then s.(senders := s.senders - {appId}) else s
  }

  function CachedMessages(s: State, appId: string): set<Envelope> {
    set k | k in s.cache && k.appId == appId :: s.cache[k]
  }

  class RegistryInner {
    var apps: map<string, AppInfo>
    var cache: map<Key, Envelope>
    var appOrder: seq<string>
    var cacheOrder: seq<Key>
    var senders: map<string, Sender>

    function Contents(): State
      reads this
    {
      State(apps, cache, appOrder, cacheOrder, senders)
    }

    constructor ()
      ensures Contents() == EMPTY
    {
      apps, cache, appOrder, cacheOrder, senders := map[], map[], [], [], map[];
    }

    method EvictOldestAppIfNeeded()
      modifies this`apps, this`cache, this`appOrder
      ensures Contents() == AppsEvicted(old(Contents()))
    {
      hide AppsEvicted, WithoutApp;
      while |apps| > MAX_APPS
        invariant AppsEvicted(Contents()) == AppsEvicted(old(Contents()))
        decreases |appOrder|
      {
        ghost var before := Contents();
        EvictionStep(before);
        if appOrder == [] {
          break;
        }
        var id := appOrder[0];
        appOrder := appOrder[1..];
        apps := apps - {id};
        cache := WithoutApp(cache, id);
        assert Contents() == AppPopped(before);
      }
      EvictionStep(Contents());
    }

    method EvictOldestCacheEntryIfNeeded()
      modifies this`cache, this`cacheOrder
      ensures Contents() == CacheEvicted(old(Contents()))
    {
      while |cache| > MAX_CACHE_ENTRIES
        invariant CacheEvicted(Contents()) == CacheEvicted(old(Contents()))
        decreases |cacheOrder|
      {
        if cacheOrder == [] {
          break;
        }
        var key := cacheOrder[0];
        cacheOrder := cacheOrder[1..];
        cache := cache - {key};
      }
    }

    method RegisterSender(appId: string, tx: Sender)
      modifies this`senders
      ensures Contents() == SenderRegistered(old(Contents()), appId, tx)
    {
      senders := senders[appId := tx];
    }

    method UnregisterSender(appId: string, tx: Sender)
      modifies this`senders
      ensures Contents() == SenderUnregistered(old(Contents()), appId, tx)
    {
      if appId in senders {
        if senders[appId] == tx {
          senders := senders - {appId};
        }
      }
    }

    method Record(e: Envelope, now: int) returns (newlyConnected: Option<AppInfo>)
      modifies this
      ensures Contents() == Recorded(old(Contents()), e, now)
      ensures newlyConnected == if e.kind == "hello" then Some(HelloInfo(e, now)) else None
    {
      newlyConnected := None;
      if e.kind == "hello" {
        var info := HelloInfo(e, now);
        var isNew := e.appId !in apps;
        apps := apps[e.appId := info];
        if isNew {
          appOrder := appOrder + [e.appId];
          EvictOldestAppIfNeeded();
        }
        newlyConnected := Some(info);
      } else if e.appId in apps {
        apps := apps[e.appId := apps[e.appId].(lastSeen := now, connected := true)];
      }
      var key := KeyOf(e);
      var isNewKey := key !in cache;
      cache := cache[key := e];
      if isNewKey {
        cacheOrder := cacheOrder + [key];
        EvictOldestCacheEntryIfNeeded();
      }
    }

    method Forget(appId: string)
      modifies this`apps, this`cache
      ensures Contents() == Forgotten(old(Contents()), appId)
    {
      apps := apps - {appId};
      cache := WithoutApp(cache, appId);
    }

    method MarkDisconnected(appId: string) returns (changed: bool)
      modifies this`apps
      ensures Contents() == MarkedDisconnected(old(Contents()), appId)
      ensures changed <==> appId in old(apps) && old(apps)[appId].connected
    {
      if appId in apps && apps[appId].connected {
        apps := apps[appId := apps[appId].(connected := false)];
        return true;
      }
      if appId in apps {
        assert apps[appId].(connected := false) == apps[appId];
        assert apps[appId := apps[appId]] == apps;
      }
      return false;
    }
  }

  // ---- eviction picks the first live id of the deque ----

  /** The deque names every key, some of its ids perhaps stale or repeated. */
  ghost predicate Covers<K>(order: seq<K>, keys: set<K>) {
    forall k | k in keys :: k in order
  }

  /** The place of the first id that is still a key. */
  function FirstLive<K(==)>(order: seq<K>, keys: set<K>): (i: nat)
    requires keys != {} && Covers(order, keys)
    ensures i < |order| && order[i] in keys && forall j | 0 <= j < i :: order[j] !in keys
    decreases |order|
  {
    if order[0] in keys then 0 else 1 + FirstLive(order[1..], keys)
  }

  lemma {:induction false} PopStale(s: State)
    requires s.appOrder != [] && s.appOrder[0] !in s.apps
    ensures AppPopped(s).apps == s.apps && |AppPopped(s).apps| == |s.apps|
  {
  }

  lemma {:induction false} PopLive(s: State)
    requires s.appOrder != [] && s.appOrder[0] in s.apps
    ensures |AppPopped(s).apps| == |s.apps| - 1
  {
    assert AppPopped(s).apps.Keys == s.apps.Keys - {s.appOrder[0]};
  }

  function WithoutApps(cache: map<Key, Envelope>, appIds: seq<string>): map<Key, Envelope> {
    map k | k in cache && k.appId !in appIds :: cache[k]
  }

  lemma {:induction false} WithoutOneMore(cache: map<Key, Envelope>, appIds: seq<string>)
    requires appIds != []
    ensures WithoutApps(cache, appIds) == WithoutApps(WithoutApp(cache, appIds[0]), appIds[1..])
  {
    assert appIds == [appIds[0]] + appIds[1..];
  }

  lemma {:induction false} EvictionStep(s: State)
    ensures |s.apps| <= MAX_APPS || s.appOrder == [] ==> AppsEvicted(s) == s
    ensures |s.apps| > MAX_APPS && s.appOrder != [] ==> AppsEvicted(s) == AppsEvicted(AppPopped(s))
  {
  }

  /** One app too many costs exactly the first app of the deque that is still there, and
      the cached messages of everything popped on the way. */
  lemma {:induction false} AppEviction(s: State, i: nat)
    requires |s.apps| == MAX_APPS + 1
    requires i < |s.appOrder| && s.appOrder[i] in s.apps && forall j | 0 <= j < i :: s.appOrder[j] !in s.apps
    ensures AppsEvicted(s) == s.(apps := s.apps - {s.appOrder[i]}, appOrder := s.appOrder[i + 1..],
                                 cache := WithoutApps(s.cache, s.appOrder[..i + 1]))
    decreases i
  {
    hide AppsEvicted, WithoutApps, WithoutApp;
    var t := AppPopped(s);
    EvictionStep(s);
    EvictionStep(t);
    WithoutOneMore(s.cache, s.appOrder[..i + 1]);
    assert s.appOrder[..i + 1][1..] == t.appOrder[..i];
    if i == 0 {
      PopLive(s);
      WithoutNone(t.cache);
    } else {
      PopStale(s);
      assert forall j | 0 <= j < i - 1 :: t.appOrder[j] == s.appOrder[j + 1];
      AppEviction(t, i - 1);
      assert t.appOrder[i..] == s.appOrder[i + 1..];
    }
  }

  lemma {:induction false} WithoutNone(cache: map<Key, Envelope>)
    ensures WithoutApps(cache, []) == cache
  {
  }

  lemma {:induction false} CacheEviction(s: State, i: nat)
    requires |s.cache| == MAX_CACHE_ENTRIES + 1
    requires i < |s.cacheOrder| && s.cacheOrder[i] in s.cache && forall j | 0 <= j < i :: s.cacheOrder[j] !in s.cache
    ensures CacheEvicted(s) == s.(cache := s.cache - {s.cacheOrder[i]}, cacheOrder := s.cacheOrder[i + 1..])
    decreases i
  {
    var t := CachePopped(s);
    if i == 0 {
      assert t.cache.Keys == s.cache.Keys - {s.cacheOrder[0]};
    } else {
      hide CachePopped;
      CachePopsStale(s);
      assert forall j | 0 <= j < i - 1 :: t.cacheOrder[j] == s.cacheOrder[j + 1];
      CacheEviction(t, i - 1);
      assert t.cacheOrder[i..] == s.cacheOrder[i + 1..];
    }
  }

  lemma {:induction false} CachePopsStale(s: State)
    requires s.cacheOrder != [] && s.cacheOrder[0] !in s.cache
    ensures CachePopped(s) == s.(cacheOrder := s.cacheOrder[1..])
  {
  }
}
