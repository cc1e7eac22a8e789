/**
 * The deck cache and its refresh gate (DonkeyCards/Services/DataService.swift).
 * The device's preferences are a map from key to stored value; the cached
 * decks are kept as the JSON their encoder writes, and the time of the last
 * successful remote read as a date.
 */
module Cache {
  import opened Wrappers
  import opened Json
  import opened Cards
  import opened Decks
  import opened Grouping
  import opened Remote

  /** A value kept in the preferences: a date, encoded data, or something else. */
  datatype Stored = SDate(seconds: int) | SData(json: Json) | SOther

  type Defaults = map<string, Stored>

  const LastUpdateKey: string := "lastFirestoreUpdate"
  const CachedDecksKey: string := "cachedDecks"

  /** Six hours, in seconds. */
  const UpdateInterval: int := 6 * 3600

  /** `defaults.object(forKey: lastUpdateKey) as? Date`. */
  function LastUpdate(d: Defaults): (r: Option<int>)
    ensures r.Some? <==> LastUpdateKey in d && d[LastUpdateKey].SDate?
    ensures r.Some? ==> d[LastUpdateKey] == SDate(r.value)
  {
    if LastUpdateKey in d && d[LastUpdateKey].SDate? then Some(d[LastUpdateKey].seconds) else None
  }

  /** `shouldUpdate()`: never updated, or at least six hours since the last update. */
  function ShouldUpdate(d: Defaults, now: int): (r: bool)
    ensures r <==> LastUpdate(d).None? || now - LastUpdate(d).value >= UpdateInterval
  {
    match LastUpdate(d)
    case None => true
    case Some(t) => now - t >= UpdateInterval
  }

  /**
   * `timeUntilNextUpdate()`: nothing without a stored update time; otherwise
   * the rest of the six hours, never negative.
   */
  function TimeUntilNextUpdate(d: Defaults, now: int): (r: Option<int>)
    ensures r.None? <==> LastUpdate(d).None?
    ensures r.Some? ==> 0 <= r.value && r.value >= UpdateInterval - (now - LastUpdate(d).value)
    ensures r.Some? && r.value > 0 ==> r.value == UpdateInterval - (now - LastUpdate(d).value)
  {
    match LastUpdate(d)
    case None => None
    case Some(t) =>
      var remaining := UpdateInterval - (now - t);
      Some(if remaining > 0 then remaining else 0)
  }

  /** The gate is open exactly when no time is left to wait, or no time is known. */
  lemma ShouldUpdateIffNoTimeLeft(d: Defaults, now: int)
    ensures ShouldUpdate(d, now) <==> TimeUntilNextUpdate(d, now).None? || TimeUntilNextUpdate(d, now) == Some(0)
  {
  }

  function EncodeDecks(ds: seq<Deck>): (r: seq<Json>)
    ensures |r| == |ds|
    ensures forall i :: 0 <= i < |ds| ==> r[i] == EncodeDeck(ds[i])
  {
    if ds == [] then [] else [EncodeDeck(ds[0])] + EncodeDecks(ds[1..])
  }

  /** `[Deck]` decoding: all decks decode, or the whole array fails. */
  function DecodeDecks(js: seq<Json>, ctx: DecodeContext): (r: Decoded<seq<Deck>>)
    ensures r.Decoded? <==> forall i :: 0 <= i < |js| ==> DecodeDeck(js[i], ctx).Decoded?
    ensures r.Decoded? ==> (|r.value| == |js| &&
      forall i :: 0 <= i < |js| ==> r.value[i] == DecodeDeck(js[i], ctx).value)
  {
    if js == [] then Decoded([])
    else
      match DecodeDeck(js[0], ctx)
      case DecodeFailure =>
        assert !DecodeDeck(js[0], ctx).Decoded?;
        DecodeFailure
      case Decoded(d) =>
        var rest := DecodeDecks(js[1..], ctx);
        assert forall i :: 1 <= i < |js| ==> js[i] == js[1..][i - 1];
        if rest.DecodeFailure? then DecodeFailure else Decoded([d] + rest.value)
  }

  /** `saveDecksToCache(_:)`: the encoded decks and the current time, nothing else touched. */
  function SaveDecksToCache(d: Defaults, decks: seq<Deck>, now: int): (r: Defaults)
    ensures r.Keys == d.Keys + {CachedDecksKey, LastUpdateKey}
    ensures r[CachedDecksKey] == SData(JArr(EncodeDecks(decks)))
    ensures LastUpdate(r) == Some(now)
    ensures forall k :: k in d && k != CachedDecksKey && k != LastUpdateKey ==> r[k] == d[k]
  {
    d[CachedDecksKey := SData(JArr(EncodeDecks(decks)))][LastUpdateKey := SDate(now)]
  }

  /**
   * `loadDecksFromCache()`: nothing unless data is stored under the key and
   * decodes as an array of decks.
   */
  function LoadDecksFromCache(d: Defaults, ctx: DecodeContext): (r: Option<seq<Deck>>)
    ensures r.Some? <==>
      && CachedDecksKey in d && d[CachedDecksKey].SData? && d[CachedDecksKey].json.JArr?
      && DecodeDecks(d[CachedDecksKey].json.items, ctx).Decoded?
    ensures r.Some? ==> r.value == DecodeDecks(d[CachedDecksKey].json.items, ctx).value
    ensures r.Some? ==> |r.value| == |d[CachedDecksKey].json.items|
  {
    if CachedDecksKey in d && d[CachedDecksKey].SData? && d[CachedDecksKey].json.JArr? then
      match DecodeDecks(d[CachedDecksKey].json.items, ctx)
      case Decoded(ds) => Some(ds)
      case DecodeFailure => None
    else None
  }

  /** Every deck with its card dates moved by the reference-date offset. */
  function ShiftedDeckDates(ds: seq<Deck>): (r: seq<Deck>)
    ensures |r| == |ds|
    ensures forall i :: 0 <= i < |ds| ==> r[i] == ds[i].(cards := ShiftedDates(ds[i].cards))
  {
    if ds == [] then [] else [ds[0].(cards := ShiftedDates(ds[0].cards))] + ShiftedDeckDates(ds[1..])
  }

  lemma {:induction false} DecksRoundTrip(ds: seq<Deck>, ctx: DecodeContext)
    ensures DecodeDecks(EncodeDecks(ds), ctx) == Decoded(ShiftedDeckDates(ds))
    decreases |ds|
  {
    if ds != [] {
      DeckRoundTrip(ds[0], ctx);
      DecksRoundTrip(ds[1..], ctx);
      assert EncodeDecks(ds)[1..] == EncodeDecks(ds[1..]);
      assert ShiftedDeckDates(ds) == [ShiftedDeckDates(ds)[0]] + ShiftedDeckDates(ds[1..]);
    }
  }

  /** Reading the cache right after saving gives the saved decks back with their card dates moved. */
  lemma SaveThenLoad(d: Defaults, decks: seq<Deck>, now: int, ctx: DecodeContext)
    ensures LoadDecksFromCache(SaveDecksToCache(d, decks, now), ctx) == Some(ShiftedDeckDates(decks))
  {
    var r := SaveDecksToCache(d, decks, now);
    var items := EncodeDecks(decks);
    assert CachedDecksKey in r && r[CachedDecksKey] == SData(JArr(items));
    DecksRoundTrip(decks, ctx);
  }

  /** Saving closes the refresh gate for the next six hours. */
  lemma SaveClosesGate(d: Defaults, decks: seq<Deck>, now: int, later: int)
    requires now <= later < now + UpdateInterval
    ensures !ShouldUpdate(SaveDecksToCache(d, decks, now), later)
    ensures TimeUntilNextUpdate(SaveDecksToCache(d, decks, now), later) == Some(UpdateInterval - (later - now))
    ensures ShouldUpdate(SaveDecksToCache(d, decks, now), now + UpdateInterval)
  {
    assert LastUpdate(SaveDecksToCache(d, decks, now)) == Some(now);
  }

  /** What comes back from the cache equals what was saved, deck by deck, but for the card dates. */
  lemma ShiftedDecksKeepAllButDates(decks: seq<Deck>)
    ensures |ShiftedDeckDates(decks)| == |decks|
    ensures forall i :: 0 <= i < |decks| ==> SameButCardDates(ShiftedDeckDates(decks)[i], decks[i])
  {
    forall i | 0 <= i < |decks| ensures SameButCardDates(ShiftedDeckDates(decks)[i], decks[i]) {
      ShiftKeepsAllButDates(decks[i]);
    }
  }

  /** `loadCards(forceRefresh:)`: the fetched cards, or none on an error or a missing value. */
  function LoadCards(reply: Reply<seq<Card>>): (r: seq<Card>)
    ensures reply.error.Some? ==> r == []
    ensures reply.error.None? && reply.value.Some? ==> r == reply.value.value
    ensures reply.error.None? && reply.value.None? ==> r == []
  {
    if reply.error.Some? then [] else reply.value.GetOr([])
  }

  /** Loading cards from a query: the decodable documents' cards, or none when the read failed. */
  lemma LoadCardsFromQuery(q: QueryResult, now: int)
    ensures q.Snapshot? ==> LoadCards(FetchCards(q, now)) == DecodeCardDocuments(q.documents, now)
    ensures !q.Snapshot? ==> LoadCards(FetchCards(q, now)) == []
  {
  }

  /** `DataService`: the preferences it reads and writes. */
  class DataService {
    var defaults: Defaults

    constructor(stored: Defaults)
      ensures defaults == stored
    {
      defaults := stored;
    }

    /**
     * `getDecks(forceRefresh:completion:)`. `deliveries` lists the arguments
     * of the completion calls in order; `fetched` says whether the remote read
     * ran, whose outcome is the query `q`.
     *
     * Unless forced, readable cached decks are delivered at once, and the
     * method ends there while the six hours have not passed. Otherwise the
     * remote read runs: its decks replace the cache and are delivered; on an
     * error the cached decks, or none, are delivered. The remote read never
     * answers with no decks and no error (an empty or missing snapshot gives
     * an empty list), so the nil-decks fallback never runs and an empty
     * collection empties the cache.
     */
    method GetDecks(forceRefresh: bool, now: int, ctx: DecodeContext, q: QueryResult, newId: nat -> Uuid)
      returns (deliveries: seq<seq<Deck>>, fetched: bool, ghost slots: seq<Slot>)
      modifies this
      ensures var cached := LoadDecksFromCache(old(defaults), ctx);
        var early := if !forceRefresh && cached.Some? then [cached.value] else [];
        && (fetched <==> forceRefresh || cached.None? || ShouldUpdate(old(defaults), now))
        && (!fetched ==> deliveries == early && defaults == old(defaults))
        && (fetched ==> |deliveries| == |early| + 1 && deliveries[..|early|] == early)
        && (fetched && !q.QueryError? ==>
              && defaults == SaveDecksToCache(old(defaults), deliveries[|early|], now)
              && (LoadCards(FetchCards(q, now)) == [] ==> deliveries[|early|] == [])
              && (LoadCards(FetchCards(q, now)) != [] ==>
                   GroupedAs(LoadCards(FetchCards(q, now)), newId, deliveries[|early|], slots)))
        && (fetched && q.QueryError? ==>
              defaults == old(defaults) && deliveries[|early|] == cached.GetOr([]))
    {
      deliveries := [];
      slots := [];
      if !forceRefresh {
        var cachedDecks := LoadDecksFromCache(defaults, ctx);
        if cachedDecks.Some? {
          deliveries := [cachedDecks.value];
          if !ShouldUpdate(defaults, now) {
            fetched := false;
            return;
          }
        }
      }
      fetched := true;
      var decks, error;
      decks, error, slots := GetDecksFromFirestore(q, now, newId);
      if error.Some? {
        var fallback := LoadDecksFromCache(defaults, ctx);
        deliveries := deliveries + [fallback.GetOr([])];
        return;
      }
      if decks.Some? {
        defaults := SaveDecksToCache(defaults, decks.value, now);
        deliveries := deliveries + [decks.value];
      } else {
        var fallback := LoadDecksFromCache(defaults, ctx);
        deliveries := deliveries + [fallback.GetOr([])];
      }
    }
  }
}
