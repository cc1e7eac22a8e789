/**
 * Deck (DonkeyCards/Models/DeckModel.swift): a named group of cards for one
 * language and topic, with a generated UUID and a progress key built from
 * language and topic only.
 */
module Decks {
  import opened Wrappers
  import opened Text
  import opened Json
  import opened Cards

  predicate IsHexDigit(c: char) {
    IsDigit(c) || 'A' <= c <= 'F' || 'a' <= c <= 'f'
  }

  /** The text `UUID(uuidString:)` accepts: 8-4-4-4-12 hex digits, in either case. */
  predicate IsUuidText(s: string) {
    && |s| == 36
    && forall i :: 0 <= i < 36 ==>
         if i == 8 || i == 13 || i == 18 || i == 23 then s[i] == '-' else IsHexDigit(s[i])
  }

  /** The text `uuidString` produces: a UUID text without lower-case letters. */
  predicate IsCanonicalUuid(s: string) {
    IsUuidText(s) && forall i :: 0 <= i < |s| ==> !IsLower(s[i])
  }

  /** A UUID, kept as its `uuidString`. */
  type Uuid = s: string | IsCanonicalUuid(s) witness "00000000-0000-0000-0000-000000000000"

  /** Reading a UUID text gives the UUID whose `uuidString` is its upper-case form. */
  function ParseUuid(s: string): (r: Option<Uuid>)
    ensures r.Some? <==> IsUuidText(s)
    ensures IsCanonicalUuid(s) ==> r == Some(s)
  {
    if IsUuidText(s) then
      var u := Upper(s);
      assert IsCanonicalUuid(u);
      assert IsCanonicalUuid(s) ==> u == s;
      Some(u)
    else None
  }

  /** Swift's `Deck`; `id` is the `UUID()` drawn when the value was made. */
  datatype Deck = Deck(id: Uuid, nome: string, idioma: string, tema: string, cards: seq<Card>)

  /** `"\(idioma)_\(tema)"`: the deck's key in the progress ledger. */
  function StorageId(d: Deck): (r: string)
    ensures |r| == |d.idioma| + |d.tema| + 1
    ensures r[..|d.idioma|] == d.idioma && r[|d.idioma|] == '_' && r[|d.idioma| + 1..] == d.tema
  {
    d.idioma + "_" + d.tema
  }

  /**
   * A rebuilt deck for the same language and topic keys to the same progress
   * record, whatever its generated id, name or cards.
   */
  lemma StorageIdIgnoresIdAndCards(a: Deck, b: Deck)
    requires a.idioma == b.idioma && a.tema == b.tema
    ensures StorageId(a) == StorageId(b)
  {
  }

  /**
   * `init(nome:idioma:tema:cards:)`; `id` is the fresh UUID, supplied by the
   * caller, and `cards` may be left out.
   */
  function NewDeck(id: Uuid, nome: string, idioma: string, tema: string, cards: seq<Card> := []): (d: Deck)
    ensures d.id == id && d.nome == nome && d.idioma == idioma && d.tema == tema && d.cards == cards
    ensures StorageId(d) == idioma + "_" + tema
  {
    Deck(id, nome, idioma, tema, cards)
  }

  /** `encode(to:)`: the five fields, the cards through Card's encoder. */
  function EncodeDeck(d: Deck): (r: Json)
    ensures r.JObj? && r.fields.Keys == {"id", "nome", "idioma", "tema", "cards"}
    ensures r.fields["id"] == JStr(d.id) && r.fields["nome"] == JStr(d.nome)
    ensures r.fields["idioma"] == JStr(d.idioma) && r.fields["tema"] == JStr(d.tema)
    ensures r.fields["cards"].JArr? && |r.fields["cards"].items| == |d.cards|
    ensures forall i :: 0 <= i < |d.cards| ==> r.fields["cards"].items[i] == EncodeCard(d.cards[i])
  {
    JObj(map[
      "id" := JStr(d.id), "nome" := JStr(d.nome), "idioma" := JStr(d.idioma),
      "tema" := JStr(d.tema), "cards" := JArr(EncodeCards(d.cards))])
  }

  function EncodeCards(cs: seq<Card>): (r: seq<Json>)
    ensures |r| == |cs|
    ensures forall i :: 0 <= i < |cs| ==> r[i] == EncodeCard(cs[i])
  {
    if cs == [] then [] else [EncodeCard(cs[0])] + EncodeCards(cs[1..])
  }

  /** `[Card]` decoding: every element must decode, or the whole array fails. */
  function DecodeCards(js: seq<Json>, ctx: DecodeContext): (r: Decoded<seq<Card>>)
    ensures r.Decoded? <==> forall i :: 0 <= i < |js| ==> DecodeCard(js[i], ctx).Decoded?
    ensures r.Decoded? ==> (|r.value| == |js| &&
      forall i :: 0 <= i < |js| ==> r.value[i] == DecodeCard(js[i], ctx).value)
  {
    if js == [] then Decoded([])
    else
      match DecodeCard(js[0], ctx)
      case DecodeFailure =>
        assert !DecodeCard(js[0], ctx).Decoded?;
        DecodeFailure
      case Decoded(c) =>
        var rest := DecodeCards(js[1..], ctx);
        assert forall i :: 1 <= i < |js| ==> js[i] == js[1..][i - 1];
        if rest.DecodeFailure? then DecodeFailure else Decoded([c] + rest.value)
  }

  /** `init(from:)`: all five keys required; `id` must read as a UUID. */
  function DecodeDeck(j: Json, ctx: DecodeContext): (r: Decoded<Deck>)
    ensures r.Decoded? ==> (j.JObj? && "cards" in j.fields && j.fields["cards"].JArr? &&
      |r.value.cards| == |j.fields["cards"].items|)
  {
    if !j.JObj? then DecodeFailure
    else
      var f := j.fields;
      var idText :- RequiredString(f, "id");
      var id :- match ParseUuid(idText) case Some(u) => Decoded(u) case None => DecodeFailure;
      var nome :- RequiredString(f, "nome");
      var idioma :- RequiredString(f, "idioma");
      var tema :- RequiredString(f, "tema");
      var cardsJson :- if "cards" in f && f["cards"].JArr? then Decoded(f["cards"].items) else DecodeFailure;
      var cards :- DecodeCards(cardsJson, ctx);
      Decoded(Deck(id, nome, idioma, tema, cards))
  }

  /**
   * What `init(from:)` accepts and what it reads: an object whose `id` is a
   * UUID string, whose three texts are strings and whose `cards` array
   * decodes; the deck then holds exactly those values.
   */
  lemma DecodeDeckFields(j: Json, ctx: DecodeContext)
    ensures DecodeDeck(j, ctx).Decoded? <==>
      && j.JObj?
      && RequiredString(j.fields, "id").Decoded? && ParseUuid(j.fields["id"].s).Some?
      && RequiredString(j.fields, "nome").Decoded?
      && RequiredString(j.fields, "idioma").Decoded?
      && RequiredString(j.fields, "tema").Decoded?
      && "cards" in j.fields && j.fields["cards"].JArr?
      && DecodeCards(j.fields["cards"].items, ctx).Decoded?
    ensures DecodeDeck(j, ctx).Decoded? ==>
      var d := DecodeDeck(j, ctx).value;
      && Some(d.id) == ParseUuid(j.fields["id"].s)
      && d.nome == j.fields["nome"].s
      && d.idioma == j.fields["idioma"].s
      && d.tema == j.fields["tema"].s
      && d.cards == DecodeCards(j.fields["cards"].items, ctx).value
  {
  }

  /** The two decks agree on everything but the creation dates of their cards. */
  predicate SameButCardDates(a: Deck, b: Deck) {
    && a.id == b.id && a.nome == b.nome && a.idioma == b.idioma && a.tema == b.tema
    && |a.cards| == |b.cards|
    && forall i :: 0 <= i < |a.cards| ==> a.cards[i].(dataCriacao := 0) == b.cards[i].(dataCriacao := 0)
  }

  /** The cards as they come back from the cache: every date moved by the reference-date offset. */
  function ShiftedDates(cs: seq<Card>): (r: seq<Card>)
    ensures |r| == |cs|
    ensures forall i :: 0 <= i < |cs| ==> r[i] == cs[i].(dataCriacao := cs[i].dataCriacao - ReferenceDateOffset)
  {
    if cs == [] then [] else [cs[0].(dataCriacao := cs[0].dataCriacao - ReferenceDateOffset)] + ShiftedDates(cs[1..])
  }

  lemma {:induction false} CardsRoundTrip(cs: seq<Card>, ctx: DecodeContext)
    ensures DecodeCards(EncodeCards(cs), ctx) == Decoded(ShiftedDates(cs))
  {
    if cs != [] {
      CardRoundTrip(cs[0], ctx);
      CardsRoundTrip(cs[1..], ctx);
      assert EncodeCards(cs)[1..] == EncodeCards(cs[1..]);
      assert ShiftedDates(cs) == [ShiftedDates(cs)[0]] + ShiftedDates(cs[1..]);
    }
  }

  lemma ShiftKeepsAllButDates(d: Deck)
    ensures SameButCardDates(d.(cards := ShiftedDates(d.cards)), d)
  {
    var s := ShiftedDates(d.cards);
    forall i | 0 <= i < |d.cards| ensures s[i].(dataCriacao := 0) == d.cards[i].(dataCriacao := 0) {
      assert s[i] == d.cards[i].(dataCriacao := d.cards[i].dataCriacao - ReferenceDateOffset);
    }
  }

  /**
   * Decoding an encoded deck restores its id, name, language, topic and cards,
   * card by card, except for the card dates (see Cards.CardRoundTrip).
   */
  lemma DeckRoundTrip(d: Deck, ctx: DecodeContext)
    ensures DecodeDeck(EncodeDeck(d), ctx) == Decoded(d.(cards := ShiftedDates(d.cards)))
    ensures SameButCardDates(DecodeDeck(EncodeDeck(d), ctx).value, d)
  {
    var r := DecodeDeck(EncodeDeck(d), ctx);
    assert r == Decoded(d.(cards := ShiftedDates(d.cards))) by {
      CardsRoundTrip(d.cards, ctx);
      assert ParseUuid(d.id) == Some(d.id);
      var f := EncodeDeck(d).fields;
      assert RequiredString(f, "id") == Decoded(d.id);
      assert RequiredString(f, "nome") == Decoded(d.nome);
      assert RequiredString(f, "idioma") == Decoded(d.idioma);
      assert RequiredString(f, "tema") == Decoded(d.tema);
      assert f["cards"] == JArr(EncodeCards(d.cards));
    }
    ShiftKeepsAllButDates(d);
  }
}
