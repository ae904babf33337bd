/** The in-memory cache (backend/internal/cache/memory.go): a map whose entries expire, with the expired
    ones removed lazily by `Get`. The specification functions act on the raw map; the class implements them. */
module TimedCache {
  import opened Wrappers

  /** Go's zero `time.Time` means "never expires". */
  datatype Expiry = Never | At(t: int)

  datatype Item<+V> = Item(value: V, expires: Expiry)

  type Items<K, V> = map<K, Item<V>>

  /** `Get` treats an entry as gone strictly after its expiry instant. */
  predicate Lapsed<V>(item: Item<V>, now: int) {
    item.expires.At? && now > item.expires.t
  }

  /** `SetNX` and `TTL` treat an entry as gone from its expiry instant on. */
  predicate Reclaimable<V>(item: Item<V>, now: int) {
    item.expires.At? && now >= item.expires.t
  }

  function ExpiryAfter(ttl: int, now: int): Expiry {
    if ttl <= 0 then Never else At(now + ttl)
  }

  function Lookup<K, V>(items: Items<K, V>, key: K, now: int): Option<V> {
    if key in items && !Lapsed(items[key], now) then Some(items[key].value) else None
  }

  /** The raw map after a `Get`: the looked-up entry is dropped when it has lapsed. */
  function Purge<K, V>(items: Items<K, V>, key: K, now: int): Items<K, V> {
    if key in items && Lapsed(items[key], now) then items - {key} else items
  }

  function Put<K, V>(items: Items<K, V>, key: K, value: V, ttl: int, now: int): Items<K, V> {
    items[key := Item(value, ExpiryAfter(ttl, now))]
  }

  predicate Vacant<K, V>(items: Items<K, V>, key: K, now: int) {
    key !in items || Reclaimable(items[key], now)
  }

  class MemoryCache<K(==), V> {
    var items: Items<K, V>

    constructor ()
      ensures items == map[]
    {
      items := map[];
    }

    method Get(key: K, now: int) returns (found: Option<V>)
      modifies this
      ensures found == Lookup(old(items), key, now)
      ensures items == Purge(old(items), key, now)
    {
      if key !in items {
        return None;
      }
      var item := items[key];
      if item.expires.At? && now > item.expires.t {
        Del(key);
        return None;
      }
      return Some(item.value);
    }

    method Set(key: K, value: V, ttl: int, now: int)
      modifies this
      ensures items == Put(old(items), key, value, ttl, now)
    {
      var expires := At(now + ttl);
      if ttl <= 0 {
        expires := Never;
      }
      items := items[key := Item(value, expires)];
    }

    method SetNX(key: K, value: V, ttl: int, now: int) returns (claimed: bool)
      modifies this
      ensures claimed == Vacant(old(items), key, now)
      ensures items == if claimed then Put(old(items), key, value, ttl, now) else old(items)
    {
      if key in items && (items[key].expires.Never? || now < items[key].expires.t) {
        return false;
      }
      var expires := At(now + ttl);
      if ttl <= 0 {
        expires := Never;
      }
      items := items[key := Item(value, expires)];
      return true;
    }

    method Del(key: K)
      modifies this
      ensures items == old(items) - {key}
    {
      items := items - {key};
    }

    method TTL(key: K, now: int) returns (left: int, ok: bool)
      ensures ok == !Vacant(items, key, now)
      ensures left == if ok && items[key].expires.At? then items[key].expires.t - now else 0
    {
      if key !in items {
        return 0, false;
      }
      if items[key].expires.Never? {
        return 0, true;
      }
      var d := items[key].expires.t - now;
      if d <= 0 {
        return 0, false;
      }
      return d, true;
    }

    /** Every raw key that matches, lapsed ones included, in whatever order the map yields them. */
    method Keys(matches: K -> bool) returns (keys: seq<K>)
      ensures forall k :: k in items && matches(k) <==> k in keys
      ensures forall i, j :: 0 <= i < j < |keys| ==> keys[i] != keys[j]
    {
      keys := [];
      var rest := items.Keys;
      while rest != {}
        invariant rest <= items.Keys
        invariant forall k :: k in keys <==> k in items && k !in rest && matches(k)
        invariant forall i, j :: 0 <= i < j < |keys| ==> keys[i] != keys[j]
        decreases rest
      {
        var k :| k in rest;
        if matches(k) {
          keys := keys + [k];
        }
        rest := rest - {k};
      }
    }
  }

  // ----- Key patterns -----

  predicate HasPrefix(s: string, prefix: string) {
    |prefix| <= |s| && s[..|prefix|] == prefix
  }

  predicate HasSuffix(s: string, suffix: string) {
    |suffix| <= |s| && s[|s| - |suffix|..] == suffix
  }

  predicate Contains(s: string, part: string) {
    exists i :: 0 <= i <= |s| && HasPrefix(s[i..], part)
  }

  function TrimPrefixStar(p: string): string {
    if HasPrefix(p, "*") then p[1..] else p
  }

  function TrimSuffixStar(p: string): string {
    if HasSuffix(p, "*") then p[..|p| - 1] else p
  }

  predicate MatchPattern(pattern: string, key: string) {
    if pattern == "*" then true
    else if HasPrefix(pattern, "*") && HasSuffix(pattern, "*") then
      Contains(key, TrimSuffixStar(TrimPrefixStar(pattern)))
    else if HasPrefix(pattern, "*") then HasSuffix(key, TrimPrefixStar(pattern))
    else if HasSuffix(pattern, "*") then HasPrefix(key, TrimSuffixStar(pattern))
    else pattern == key
  }

  /** The reference: a star stands for any text, every other character for itself. */
  predicate Glob(pattern: string, key: string)
    decreases |pattern| + |key|
  {
    if pattern == "" then key == ""
    else if pattern[0] == '*' then Glob(pattern[1..], key) || (key != "" && Glob(pattern, key[1..]))
    else key != "" && key[0] == pattern[0] && Glob(pattern[1..], key[1..])
  }

  /** A pattern without stars, then nothing or one star. */
  lemma {:induction false} GlobPlain(body: string, key: string)
    requires '*' !in body
    ensures Glob(body, key) <==> key == body
    ensures Glob(body + "*", key) <==> HasPrefix(key, body)
    decreases |body|
  {
    if body == "" {
      GlobStar(key);
      assert body + "*" == "*" && key[..0] == "";
    } else if key != "" && key[0] == body[0] {
      GlobPlain(body[1..], key[1..]);
      assert (body + "*")[1..] == body[1..] + "*";
      assert key == [key[0]] + key[1..] && body == [body[0]] + body[1..];
      assert HasPrefix(key, body) <==> HasPrefix(key[1..], body[1..]);
    }
  }

  lemma {:induction false} GlobStar(key: string)
    ensures Glob("*", key)
  {
    assert "*"[1..] == "";
    if key != "" {
      GlobStar(key[1..]);
    }
  }

  /** A leading star, then a pattern without stars, then nothing or one star. */
  lemma {:induction false} GlobLeadingStar(body: string, key: string)
    requires '*' !in body
    ensures Glob("*" + body, key) <==> HasSuffix(key, body)
    ensures Glob("*" + (body + "*"), key) <==> Contains(key, body)
    decreases |key|
  {
    GlobPlain(body, key);
    assert ("*" + body)[1..] == body && ("*" + (body + "*"))[1..] == body + "*";
    if key == "" {
      assert key[0..] == key;
    } else {
      GlobLeadingStar(body, key[1..]);
      SuffixStep(key, body);
      ContainsStep(key, body);
    }
  }

  lemma SuffixStep(key: string, body: string)
    requires key != ""
    ensures HasSuffix(key, body) <==> key == body || HasSuffix(key[1..], body)
  {
    if |body| < |key| {
      assert key[1..][|key| - 1 - |body|..] == key[|key| - |body|..];
    }
  }

  lemma ContainsStep(key: string, body: string)
    requires key != ""
    ensures Contains(key, body) <==> HasPrefix(key, body) || Contains(key[1..], body)
  {
    assert key[0..] == key;
    if i :| 0 < i <= |key| && HasPrefix(key[i..], body) {
      assert key[1..][i - 1..] == key[i..];
    }
    if i :| 0 <= i <= |key[1..]| && HasPrefix(key[1..][i..], body) {
      assert key[1..][i..] == key[i + 1..];
    }
  }

  /** Patterns without stars, and with one trailing star, the shape the application uses, are matched as globs. */
  lemma TrailingPatternIsGlob(body: string, key: string)
    requires '*' !in body
    ensures MatchPattern(body, key) <==> Glob(body, key)
    ensures MatchPattern(body + "*", key) <==> Glob(body + "*", key)
  {
    GlobPlain(body, key);
    assert |body| > 0 ==> body[0] in body && body[|body| - 1] in body;
    assert |body| > 0 ==> body[..1][0] == body[0] && body[|body| - 1..][0] == body[|body| - 1];
    assert (body + "*")[..|body|] == body && (body + "*")[|body|..] == "*";
    if body == "" {
      assert body + "*" == "*";
    } else {
      assert (body + "*")[..1][0] == body[0];
    }
  }

  /** So are patterns with a leading star, with or without a trailing one. */
  lemma LeadingPatternIsGlob(body: string, key: string)
    requires '*' !in body && body != ""
    ensures MatchPattern("*" + body, key) <==> Glob("*" + body, key)
    ensures MatchPattern("*" + (body + "*"), key) <==> Glob("*" + (body + "*"), key)
  {
    GlobLeadingStar(body, key);
    var p, q := "*" + body, "*" + (body + "*");
    assert body[|body| - 1] in body;
    assert p[..1] == "*" && p[1..] == body && p[|p| - 1..][0] == body[|body| - 1];
    assert q[..1] == "*" && q[1..] == body + "*" && q[|q| - 1..] == "*";
    assert HasSuffix(body + "*", "*") && (body + "*")[..|body|] == body;
  }

  /** A star inside is taken literally, unlike in a glob. */
  lemma InnerStarIsLiteral()
    ensures Glob("a*b", "ab") && !MatchPattern("a*b", "ab")
  {
    assert "a*b"[1..] == "*b" && "*b"[1..] == "b" && "b"[1..] == "" && "ab"[1..] == "b";
  }

  /** What a reader sees after a write: the written value from the write until its expiry instant, then nothing;
      other keys are untouched. */
  lemma LookupAfterPut<K, V>(items: Items<K, V>, key: K, value: V, ttl: int, now: int, other: K, later: int)
    requires now <= later
    ensures Lookup(Put(items, key, value, ttl, now), other, later) ==
            if other != key then Lookup(items, other, later)
            else if ttl <= 0 || later <= now + ttl then Some(value)
            else None
  {
  }

  /** The lazy delete of `Get` is invisible: no later read of any key can tell whether it happened. */
  lemma PurgeInvisible<K, V>(items: Items<K, V>, key: K, now: int, other: K, later: int)
    requires now <= later
    ensures Lookup(Purge(items, key, now), other, later) == Lookup(items, other, later)
  {
  }

  /** `Get` and `SetNX` disagree about a present entry at exactly one instant, its expiry time. */
  lemma ReadersDisagreeExactlyAtExpiry<K, V>(items: Items<K, V>, key: K, now: int)
    requires key in items
    ensures (Lookup(items, key, now).Some? && Vacant(items, key, now)) <==> items[key].expires == At(now)
    ensures Lookup(items, key, now).None? ==> Vacant(items, key, now)
  {
  }

  /** One bid for a key: its value, time to live and instant. */
  datatype Bid<V> = Bid(value: V, ttl: int, now: int)

  function BidAll<K, V>(items: Items<K, V>, key: K, bids: seq<Bid<V>>): (r: (Items<K, V>, seq<bool>))
    ensures |r.1| == |bids|
    decreases |bids|
  {
    if bids == [] then (items, [])
    else
      var c := bids[0];
      var won := Vacant(items, key, c.now);
      var rest := BidAll(if won then Put(items, key, c.value, c.ttl, c.now) else items, key, bids[1..]);
      (rest.0, [won] + rest.1)
  }

  /** However many deliveries race for one key, after the first winner nobody else wins before its entry
      expires: `SetNX` alone gives exclusive creation. */
  lemma {:induction false} OneWinner<K, V>(items: Items<K, V>, key: K, bids: seq<Bid<V>>)
    requires |bids| > 0
    requires Vacant(items, key, bids[0].now)
    requires forall i :: 0 <= i < |bids| ==> bids[0].ttl <= 0 || bids[i].now < bids[0].now + bids[0].ttl
    ensures BidAll(items, key, bids).1[0]
    ensures forall i :: 0 < i < |bids| ==> !BidAll(items, key, bids).1[i]
    ensures BidAll(items, key, bids).0 == Put(items, key, bids[0].value, bids[0].ttl, bids[0].now)
  {
    var after := Put(items, key, bids[0].value, bids[0].ttl, bids[0].now);
    assert forall i :: 0 <= i < |bids[1..]| ==> bids[1..][i] == bids[i + 1];
    NobodyWins(after, key, bids[1..]);
  }

  lemma {:induction false} NobodyWins<K, V>(items: Items<K, V>, key: K, bids: seq<Bid<V>>)
    requires key in items
    requires forall i :: 0 <= i < |bids| ==> !Reclaimable(items[key], bids[i].now)
    ensures BidAll(items, key, bids).0 == items
    ensures forall i :: 0 <= i < |bids| ==> !BidAll(items, key, bids).1[i]
    decreases |bids|
  {
    if bids != [] {
      NobodyWins(items, key, bids[1..]);
    }
  }
}
