/**
 * The user endpoints' pure part: listing a user's interactions and
 * aggregating them into statistics. The database query that fetches the
 * user's rows is an input; an empty list is the "no interactions" case.
 */
module UserStats {
  import opened Wrappers
  import opened Text

  /**
   * A row of the `interactions` table. Timestamps are modelled as integers
   * ordered as the stored datetimes are.
   */
  datatype Interaction = Interaction(id: int, userId: int, productId: int, eventType: string, timestamp: int)

  /** An HTTP 404 carrying its `detail` message. */
  datatype NotFound = NotFound(detail: string)

  function NoInteractionsDetail(userId: int): string {
    "No interactions found for user " + IntToDecimal(userId)
  }

  datatype InteractionResponse = InteractionResponse(id: int, userId: int, productId: int, eventType: string, timestamp: int)

  datatype UserInteractionsResponse = UserInteractionsResponse(userId: int, interactions: seq<InteractionResponse>)

  /**
   * `get_user_interactions_endpoint`: 404 for a user without interactions,
   * otherwise one response per interaction, in the order fetched, with all
   * five fields copied.
   */
  function GetUserInteractions(userId: int, rows: seq<Interaction>): (r: Result<UserInteractionsResponse, NotFound>)
    ensures r.Err? <==> rows == []
    ensures r.Err? ==> r.error.detail == NoInteractionsDetail(userId)
    ensures r.Ok? ==> r.value.userId == userId && |r.value.interactions| == |rows|
    ensures r.Ok? ==> forall i :: 0 <= i < |rows| ==>
      var x, y := rows[i], r.value.interactions[i];
      y.id == x.id && y.userId == x.userId && y.productId == x.productId
      && y.eventType == x.eventType && y.timestamp == x.timestamp
  {
    if rows == [] then Err(NotFound(NoInteractionsDetail(userId)))
    else Ok(UserInteractionsResponse(userId, seq(|rows|, i requires 0 <= i < |rows| =>
      InteractionResponse(rows[i].id, rows[i].userId, rows[i].productId, rows[i].eventType, rows[i].timestamp))))
  }

  // ------------------------------------------------------- event histogram

  /** One `event_types` entry: an event type and how often it occurred. */
  datatype Tally = Tally(eventType: string, count: nat)

  /** The event types of a histogram, each listed once. */
  predicate DistinctEvents(h: seq<Tally>) {
    forall a, b :: 0 <= a < b < |h| ==> h[a].eventType != h[b].eventType
  }

  /** Every event type listed has occurred at least once. */
  predicate Positive(h: seq<Tally>) {
    forall k :: 0 <= k < |h| ==> h[k].count >= 1
  }

  function EventKeys(h: seq<Tally>): set<string> {
    set k | 0 <= k < |h| :: h[k].eventType
  }

  /** `event_types.get(t, 0)`. */
  function Lookup(h: seq<Tally>, t: string): nat {
    if h == [] then 0
    else if h[0].eventType == t then h[0].count
    else Lookup(h[1..], t)
  }

  /** The sum of the histogram's values. */
  function Total(h: seq<Tally>): nat {
    if h == [] then 0 else h[0].count + Total(h[1..])
  }

  /** How many of `rows` have event type `t`: the reference count. */
  function Occurrences(rows: seq<Interaction>, t: string): nat {
    if rows == [] then 0
    else Occurrences(rows[..|rows| - 1], t) + (if rows[|rows| - 1].eventType == t then 1 else 0)
  }

  function EventTypes(rows: seq<Interaction>): set<string> {
    set i | 0 <= i < |rows| :: rows[i].eventType
  }

  /**
   * `event_types[t] = event_types.get(t, 0) + 1` on an insertion-ordered dict:
   * an existing key keeps its place, a new key is appended with count 1.
   */
  function Bump(h: seq<Tally>, t: string): seq<Tally> {
    if h == [] then [Tally(t, 1)]
    else if h[0].eventType == t then [Tally(t, h[0].count + 1)] + h[1..]
    else [h[0]] + Bump(h[1..], t)
  }

  /** Bumping adds one to the bumped key's value and leaves every other value alone. */
  lemma {:induction false} BumpLookup(h: seq<Tally>, t: string)
    ensures Lookup(Bump(h, t), t) == Lookup(h, t) + 1
    ensures forall u :: u != t ==> Lookup(Bump(h, t), u) == Lookup(h, u)
  {
    if h != [] {
      if h[0].eventType == t {
        ConsParts(Tally(t, h[0].count + 1), h[1..]);
      } else {
        BumpLookup(h[1..], t);
        ConsParts(h[0], Bump(h[1..], t));
      }
    }
  }

  /** Bumping adds one to the sum of the values and keeps every value positive. */
  lemma {:induction false} BumpTotal(h: seq<Tally>, t: string)
    ensures Total(Bump(h, t)) == Total(h) + 1
    ensures Positive(h) ==> Positive(Bump(h, t))
  {
    if h == [] {
      ConsParts(Tally(t, 1), []);
    } else {
      PositiveCons(h[0], h[1..]);
      assert h == [h[0]] + h[1..];
      if h[0].eventType == t {
        ConsParts(Tally(t, h[0].count + 1), h[1..]);
        PositiveCons(Tally(t, h[0].count + 1), h[1..]);
      } else {
        BumpTotal(h[1..], t);
        ConsParts(h[0], Bump(h[1..], t));
        PositiveCons(h[0], Bump(h[1..], t));
      }
    }
  }

  /** Bumping adds the bumped key to the key set. */
  lemma {:induction false} BumpKeys(h: seq<Tally>, t: string)
    ensures EventKeys(Bump(h, t)) == EventKeys(h) + {t}
  {
    if h == [] {
      EventKeysCons(Tally(t, 1), []);
    } else {
      EventKeysCons(h[0], h[1..]);
      assert h == [h[0]] + h[1..];
      if h[0].eventType == t {
        EventKeysCons(Tally(t, h[0].count + 1), h[1..]);
      } else {
        BumpKeys(h[1..], t);
        EventKeysCons(h[0], Bump(h[1..], t));
      }
    }
  }

  /** Bumping keeps the keys distinct, and appends a key it has not seen. */
  lemma {:induction false} BumpDistinct(h: seq<Tally>, t: string)
    requires DistinctEvents(h)
    ensures DistinctEvents(Bump(h, t))
    ensures t !in EventKeys(h) ==> Bump(h, t) == h + [Tally(t, 1)]
  {
    if h == [] {
      DistinctCons(Tally(t, 1), []);
    } else {
      EventKeysCons(h[0], h[1..]);
      DistinctCons(h[0], h[1..]);
      assert h == [h[0]] + h[1..];
      if h[0].eventType == t {
        DistinctCons(Tally(t, h[0].count + 1), h[1..]);
      } else {
        BumpDistinct(h[1..], t);
        BumpKeys(h[1..], t);
        DistinctCons(h[0], Bump(h[1..], t));
      }
    }
  }

  lemma ConsParts(x: Tally, h: seq<Tally>)
    ensures ([x] + h)[1..] == h && ([x] + h)[0] == x
  {
  }

  lemma PositiveCons(x: Tally, h: seq<Tally>)
    ensures Positive([x] + h) <==> x.count >= 1 && Positive(h)
  {
    var r := [x] + h;
    if Positive(r) {
      assert r[0] == x;
      forall k | 0 <= k < |h|
        ensures h[k].count >= 1
      {
        assert h[k] == r[k + 1];
      }
    }
    if x.count >= 1 && Positive(h) {
      forall k | 0 <= k < |r|
        ensures r[k].count >= 1
      {
        if k > 0 {
          assert r[k] == h[k - 1];
        }
      }
    }
  }

  lemma DistinctCons(x: Tally, h: seq<Tally>)
    ensures DistinctEvents([x] + h) <==> x.eventType !in EventKeys(h) && DistinctEvents(h)
  {
    var r := [x] + h;
    if DistinctEvents(r) {
      forall a, b | 0 <= a < b < |h|
        ensures h[a].eventType != h[b].eventType
      {
        assert h[a] == r[a + 1] && h[b] == r[b + 1];
      }
      forall k | 0 <= k < |h|
        ensures h[k].eventType != x.eventType
      {
        assert r[k + 1] == h[k] && r[0] == x;
      }
    }
    if x.eventType !in EventKeys(h) && DistinctEvents(h) {
      forall a, b | 0 <= a < b < |r|
        ensures r[a].eventType != r[b].eventType
      {
        assert r[b] == h[b - 1];
        assert h[b - 1].eventType in EventKeys(h);
        if a > 0 {
          assert r[a] == h[a - 1];
        }
      }
    }
  }

  lemma EventKeysCons(x: Tally, h: seq<Tally>)
    ensures EventKeys([x] + h) == {x.eventType} + EventKeys(h)
  {
    var r := [x] + h;
    assert r[0] == x;
    forall u | u in EventKeys(h)
      ensures u in EventKeys(r)
    {
      var k :| 0 <= k < |h| && h[k].eventType == u;
      assert r[k + 1] == h[k];
    }
    forall u | u in EventKeys(r)
      ensures u in {x.eventType} + EventKeys(h)
    {
      var k :| 0 <= k < |r| && r[k].eventType == u;
      if k > 0 {
        assert h[k - 1] == r[k];
      }
    }
  }

  /** In a histogram with distinct keys, the entry for a key holds its lookup. */
  lemma {:induction false} LookupAt(h: seq<Tally>, k: nat)
    requires DistinctEvents(h) && k < |h|
    ensures Lookup(h, h[k].eventType) == h[k].count
  {
    if k > 0 {
      LookupAt(h[1..], k - 1);
    }
  }

  /**
   * The `event_types` dict of `get_user_stats`, built left to right. Its keys
   * are exactly the event types seen, each value is that type's number of
   * occurrences (at least one), and the values add up to the number of rows.
   */
  function Histogram(rows: seq<Interaction>): (h: seq<Tally>)
    ensures DistinctEvents(h)
    ensures EventKeys(h) == EventTypes(rows)
    ensures forall t :: Lookup(h, t) == Occurrences(rows, t)
    ensures Positive(h)
    ensures Total(h) == |rows|
  {
    if rows == [] then []
    else
      var init := rows[..|rows| - 1];
      assert EventTypes(rows) == EventTypes(init) + {rows[|rows| - 1].eventType} by {
        assert forall i :: 0 <= i < |init| ==> init[i] == rows[i];
      }
      var t := rows[|rows| - 1].eventType;
      BumpLookup(Histogram(init), t);
      BumpTotal(Histogram(init), t);
      BumpKeys(Histogram(init), t);
      BumpDistinct(Histogram(init), t);
      Bump(Histogram(init), t)
  }

  /** Every histogram value is the occurrence count of its key. */
  lemma HistogramCounts(rows: seq<Interaction>)
    ensures var h := Histogram(rows);
      forall k :: 0 <= k < |h| ==> h[k].count == Occurrences(rows, h[k].eventType)
  {
    var h := Histogram(rows);
    forall k | 0 <= k < |h|
      ensures h[k].count == Occurrences(rows, h[k].eventType)
    {
      LookupAt(h, k);
    }
  }

  // ------------------------------------------------------------- statistics

  function ProductIds(rows: seq<Interaction>): set<int> {
    set i | 0 <= i < |rows| :: rows[i].productId
  }

  /** There are never more distinct products than interactions. */
  lemma {:induction false} ProductIdsBound(rows: seq<Interaction>)
    ensures |ProductIds(rows)| <= |rows|
  {
    if rows != [] {
      var init := rows[..|rows| - 1];
      ProductIdsBound(init);
      assert ProductIds(rows) == ProductIds(init) + {rows[|rows| - 1].productId} by {
        assert forall i :: 0 <= i < |init| ==> init[i] == rows[i];
      }
    }
  }

  /** `min(interaction.timestamp for interaction in interactions)`. */
  function MinTimestamp(rows: seq<Interaction>): (m: int)
    requires rows != []
    ensures exists i :: 0 <= i < |rows| && rows[i].timestamp == m
    ensures forall i :: 0 <= i < |rows| ==> m <= rows[i].timestamp
  {
    if |rows| == 1 then rows[0].timestamp
    else
      var m := MinTimestamp(rows[1..]);
      assert forall i :: 1 <= i < |rows| ==> rows[i] == rows[1..][i - 1];
      if rows[0].timestamp <= m then rows[0].timestamp else m
  }

  /** `max(interaction.timestamp for interaction in interactions)`. */
  function MaxTimestamp(rows: seq<Interaction>): (m: int)
    requires rows != []
    ensures exists i :: 0 <= i < |rows| && rows[i].timestamp == m
    ensures forall i :: 0 <= i < |rows| ==> rows[i].timestamp <= m
  {
    if |rows| == 1 then rows[0].timestamp
    else
      var m := MaxTimestamp(rows[1..]);
      assert forall i :: 1 <= i < |rows| ==> rows[i] == rows[1..][i - 1];
      if rows[0].timestamp >= m then rows[0].timestamp else m
  }

  datatype UserStatsResponse = UserStatsResponse(
    userId: int,
    totalInteractions: nat,
    uniqueProducts: nat,
    eventTypes: seq<Tally>,
    firstInteraction: int,
    lastInteraction: int)

  /**
   * `get_user_stats`: 404 for a user without interactions; otherwise the
   * number of interactions, of distinct products, the event histogram and the
   * earliest and latest timestamps.
   */
  function GetUserStats(userId: int, rows: seq<Interaction>): (r: Result<UserStatsResponse, NotFound>)
    ensures r.Err? <==> rows == []
    ensures r.Err? ==> r.error.detail == NoInteractionsDetail(userId)
    ensures r.Ok? ==> var s := r.value;
      && s.userId == userId
      && s.totalInteractions == |rows|
      && s.uniqueProducts == |ProductIds(rows)| <= s.totalInteractions
      && s.eventTypes == Histogram(rows)
      && s.firstInteraction <= s.lastInteraction
      && (forall i :: 0 <= i < |rows| ==> s.firstInteraction <= rows[i].timestamp <= s.lastInteraction)
      && (exists i :: 0 <= i < |rows| && rows[i].timestamp == s.firstInteraction)
      && (exists i :: 0 <= i < |rows| && rows[i].timestamp == s.lastInteraction)
  {
    if rows == [] then Err(NotFound(NoInteractionsDetail(userId)))
    else
      ProductIdsBound(rows);
      Ok(UserStatsResponse(userId, |rows|, |ProductIds(rows)|, Histogram(rows),
                           MinTimestamp(rows), MaxTimestamp(rows)))
  }

  /** The sample user of the endpoint tests: three interactions with two products. */
  lemma SampleUserStats(t1: int, t2: int, t3: int)
    requires t1 <= t2 <= t3
    ensures var rows := [Interaction(1, 1, 1, "view", t1), Interaction(2, 1, 1, "purchase", t2),
                         Interaction(3, 1, 3, "view", t3)];
      var r := GetUserStats(1, rows);
      && r.Ok? && r.value.totalInteractions == 3 && r.value.uniqueProducts == 2
      && Lookup(r.value.eventTypes, "view") == 2 && Lookup(r.value.eventTypes, "purchase") == 1
      && r.value.firstInteraction == t1 && r.value.lastInteraction == t3
  {
    var a, b, c := Interaction(1, 1, 1, "view", t1), Interaction(2, 1, 1, "purchase", t2),
                   Interaction(3, 1, 3, "view", t3);
    var rows := [a, b, c];
    var h := Histogram(rows);
    assert |ProductIds(rows)| == 2 by {
      assert rows[0].productId == 1 && rows[2].productId == 3;
      assert ProductIds(rows) == {1, 3};
    }
    assert Lookup(h, "view") == 2 && Lookup(h, "purchase") == 1 by {
      assert "purchase" != "view" by {
        assert "purchase"[0] != "view"[0];
      }
      assert Occurrences([a], "view") == 1 && Occurrences([a], "purchase") == 0 by {
        assert [a][..0] == [];
      }
      assert Occurrences([a, b], "view") == 1 && Occurrences([a, b], "purchase") == 1 by {
        assert [a, b][..1] == [a];
      }
      assert rows[..2] == [a, b];
    }
    assert MinTimestamp(rows) == t1 && MaxTimestamp(rows) == t3;
  }

  /** The 404 detail names the user, as the endpoint tests expect. */
  lemma MissingUserDetail()
    ensures GetUserStats(999, []) == Err(NotFound("No interactions found for user 999"))
  {
    assert DigitChar(9) == '9';
    assert NatToDecimal(9) == "9";
    assert NatToDecimal(99) == "99";
    assert NatToDecimal(999) == "999";
    assert IntToDecimal(999) == "999";
    assert "No interactions found for user " + "999" == "No interactions found for user 999";
  }
}
