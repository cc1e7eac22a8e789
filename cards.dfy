/**
 * Card (DonkeyCards/Models/CardModel.swift): a flashcard with a word, its
 * answer, a language and a topic. Its progress key is built from language,
 * topic and word only.
 */
module Cards {
  import opened Wrappers
  import opened Json

  /**
   * Swift's memberwise `init(id:palavra:resposta:idioma:tema:dataCriacao:)` is
   * this constructor; `dataCriacao` is in whole seconds since 1970.
   */
  datatype Card = Card(
    id: Option<string>,
    palavra: string,
    resposta: string,
    idioma: string,
    tema: string,
    dataCriacao: int)

  /** `"\(idioma)_\(tema)_\(palavra)"`. */
  function StorageId(c: Card): (r: string)
    ensures |r| == |c.idioma| + |c.tema| + |c.palavra| + 2
    ensures r[..|c.idioma|] == c.idioma && r[|c.idioma|] == '_'
    ensures r[|c.idioma| + 1..|c.idioma| + 1 + |c.tema|] == c.tema && r[|c.idioma| + 1 + |c.tema|] == '_'
    ensures r[|r| - |c.palavra|..] == c.palavra
  {
    c.idioma + "_" + c.tema + "_" + c.palavra
  }

  /** The key is a function of language, topic and word: the other fields never change it. */
  lemma StorageIdIgnoresOtherFields(a: Card, b: Card)
    requires a.idioma == b.idioma && a.tema == b.tema && a.palavra == b.palavra
    ensures StorageId(a) == StorageId(b)
  {
  }

  /**
   * When no underscore occurs in language and topic, the key determines all
   * three parts back, so distinct (language, topic, word) triples get distinct keys.
   */
  lemma {:induction false} StorageIdInjective(a: Card, b: Card)
    requires '_' !in a.idioma && '_' !in a.tema && '_' !in b.idioma && '_' !in b.tema
    requires StorageId(a) == StorageId(b)
    ensures a.idioma == b.idioma && a.tema == b.tema && a.palavra == b.palavra
  {
    assert StorageId(a) == a.idioma + "_" + (a.tema + "_" + a.palavra);
    assert StorageId(b) == b.idioma + "_" + (b.tema + "_" + b.palavra);
    SplitAtFirstUnderscore(a.idioma, a.tema + "_" + a.palavra, b.idioma, b.tema + "_" + b.palavra);
    SplitAtFirstUnderscore(a.tema, a.palavra, b.tema, b.palavra);
  }

  lemma {:induction false} SplitAtFirstUnderscore(x: string, y: string, u: string, v: string)
    requires '_' !in x && '_' !in u
    requires x + "_" + y == u + "_" + v
    ensures x == u && y == v
  {
    var s := x + "_" + y;
    CharAt(x, y, |x|);
    CharAt(u, v, |u|);
    if |x| != |u| {
      assert false;
    }
    assert x == s[..|x|] == u;
    assert y == s[|x| + 1..] == v;
  }

  /** In `x + "_" + y` with no underscore in `x`, the first underscore is the separator. */
  lemma CharAt(x: string, y: string, i: nat)
    requires '_' !in x && i <= |x|
    ensures ((x + "_" + y)[i] == '_') <==> i == |x|
  {
    if i < |x| {
      assert (x + "_" + y)[i] == x[i];
    }
  }

  /** Seconds between 1970-01-01 and 2001-01-01, Foundation's reference date. */
  const ReferenceDateOffset: int := 978307200

  /**
   * The synthesized `encode(to:)`: `id` only when present, and the date as
   * JSONEncoder's default date strategy writes it, seconds since the reference date.
   */
  function EncodeCard(c: Card): (r: Json)
    ensures r.JObj?
    ensures r.fields.Keys == {"palavra", "resposta", "idioma", "tema", "dataCriacao"} + (if c.id.Some? then {"id"} else {})
    ensures r.fields["palavra"] == JStr(c.palavra) && r.fields["resposta"] == JStr(c.resposta)
    ensures r.fields["idioma"] == JStr(c.idioma) && r.fields["tema"] == JStr(c.tema)
    ensures r.fields["dataCriacao"] == JNum(c.dataCriacao - ReferenceDateOffset)
    ensures OptionalString(r.fields, "id") == Decoded(c.id)
  {
    var f := map[
      "palavra" := JStr(c.palavra), "resposta" := JStr(c.resposta),
      "idioma" := JStr(c.idioma), "tema" := JStr(c.tema),
      "dataCriacao" := JNum(c.dataCriacao - ReferenceDateOffset)];
    JObj(PutOptionalString(f, "id", c.id))
  }

  /** The four fields `init(from:)` demands as strings. */
  predicate HasRequiredTexts(f: map<string, Json>) {
    forall k | k in {"palavra", "resposta", "idioma", "tema"} :: k in f && f[k].JStr?
  }

  /** `init(from:)`: the four texts are required, `id` is optional, the date has fallbacks. */
  function DecodeCard(j: Json, ctx: DecodeContext): (r: Decoded<Card>)
    ensures r.Decoded? <==>
      && j.JObj?
      && OptionalString(j.fields, "id").Decoded?
      && HasRequiredTexts(j.fields)
      && DecodeDate(j.fields, "dataCriacao", ctx).Decoded?
    ensures r.Decoded? ==>
      && HasRequiredTexts(j.fields)
      && r.value.palavra == j.fields["palavra"].s
      && r.value.resposta == j.fields["resposta"].s
      && r.value.idioma == j.fields["idioma"].s
      && r.value.tema == j.fields["tema"].s
    ensures r.Decoded? ==> DecodeDate(j.fields, "dataCriacao", ctx) == Decoded(r.value.dataCriacao)
    ensures j.JObj? && ("id" !in j.fields || j.fields["id"].JNull?) && r.Decoded? ==> r.value.id == None
    ensures r.Decoded? && "id" in j.fields && j.fields["id"].JStr? ==> r.value.id == Some(j.fields["id"].s)
  {
    if !j.JObj? then DecodeFailure
    else
      var f := j.fields;
      var id :- OptionalString(f, "id");
      var palavra :- RequiredString(f, "palavra");
      var resposta :- RequiredString(f, "resposta");
      var idioma :- RequiredString(f, "idioma");
      var tema :- RequiredString(f, "tema");
      var dataCriacao :- DecodeDate(f, "dataCriacao", ctx);
      Decoded(Card(id, palavra, resposta, idioma, tema, dataCriacao))
  }

  /**
   * Decoding what was encoded gives the card back except its date, which comes
   * back moved by the reference-date offset: the encoder counts from 2001, the
   * decoder reads a number as counting from 1970.
   */
  lemma CardRoundTrip(c: Card, ctx: DecodeContext)
    ensures DecodeCard(EncodeCard(c), ctx) == Decoded(c.(dataCriacao := c.dataCriacao - ReferenceDateOffset))
  {
    var f := EncodeCard(c).fields;
    assert OptionalString(f, "id") == Decoded(c.id);
    assert f["palavra"] == JStr(c.palavra) && f["resposta"] == JStr(c.resposta);
    assert f["idioma"] == JStr(c.idioma) && f["tema"] == JStr(c.tema);
    assert f["dataCriacao"] == JNum(c.dataCriacao - ReferenceDateOffset);
  }
}
