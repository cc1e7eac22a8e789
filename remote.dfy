/**
 * The decoding and branching around the two Firestore collection reads of
 * DonkeyCards/Services/FirestoreService.swift: `cartoes` (cards) and
 * `idiomas` (languages). A query's outcome is an input: an error, no
 * snapshot, or the snapshot's documents in order.
 */
module Remote {
  import opened Wrappers
  import opened Cards
  import opened Decks
  import opened Idiomas
  import opened Grouping

  /**
   * The field values the decoders look at; anything else is `FOther`. A
   * Firestore integer or double arrives as a number (`FNum`), distinct from a
   * Firestore boolean.
   */
  datatype FieldValue = FStr(s: string) | FBool(b: bool) | FNum(x: real) | FTimestamp(seconds: int) | FOther

  datatype Document = Document(documentID: string, data: map<string, FieldValue>)

  datatype QueryResult = QueryError(error: FsError) | NilSnapshot | Snapshot(documents: seq<Document>)

  /** An error from the query itself, or the service's own configuration error. */
  datatype FsError = QueryFailure(description: string) | ServiceError(code: int, message: string)

  /** The error `fetchIdiomas` reports when the app has no project ID. */
  const InvalidConfiguration: FsError := ServiceError(1, "Configuração do Firebase inválida")

  /** What a completion handler `([T]?, Error?) -> Void` is called with. */
  datatype Reply<T> = Reply(value: Option<T>, error: Option<FsError>)

  /** `data[key] as? String`. */
  function StringField(data: map<string, FieldValue>, key: string): (r: Option<string>)
    ensures r.Some? <==> key in data && data[key].FStr?
    ensures r.Some? ==> data[key] == FStr(r.value)
  {
    if key in data && data[key].FStr? then Some(data[key].s) else None
  }

  /** A number that `as? Bool` bridges: exactly 0 or 1. */
  predicate IsBitNumber(v: FieldValue) {
    v.FNum? && (v.x == 0.0 || v.x == 1.0)
  }

  /**
   * `data[key] as? Bool`: a boolean, or a number that converts to one without
   * loss, which only 0 (false) and 1 (true) do.
   */
  function BoolField(data: map<string, FieldValue>, key: string): (r: Option<bool>)
    ensures r.Some? <==> key in data && (data[key].FBool? || IsBitNumber(data[key]))
    ensures r.Some? && data[key].FBool? ==> r.value == data[key].b
    ensures r.Some? && data[key].FNum? ==> (r.value <==> data[key].x == 1.0)
  {
    if key in data && data[key].FBool? then Some(data[key].b)
    else if key in data && IsBitNumber(data[key]) then Some(data[key].x == 1.0)
    else None
  }

  /**
   * The `compactMap` closure of `fetchCards(forceRefresh:)`: the four text
   * fields must be strings; the id is the document's, the date is `Date()`.
   */
  function DecodeCardDocument(doc: Document, now: int): (r: Option<Card>)
    ensures r.Some? <==>
      && StringField(doc.data, "palavra").Some? && StringField(doc.data, "resposta").Some?
      && StringField(doc.data, "idioma").Some? && StringField(doc.data, "tema").Some?
    ensures r.Some? ==>
      && r.value.id == Some(doc.documentID)
      && doc.data["palavra"] == FStr(r.value.palavra)
      && doc.data["resposta"] == FStr(r.value.resposta)
      && doc.data["idioma"] == FStr(r.value.idioma)
      && doc.data["tema"] == FStr(r.value.tema)
      && r.value.dataCriacao == now
  {
    var d := doc.data;
    match (StringField(d, "palavra"), StringField(d, "resposta"), StringField(d, "idioma"), StringField(d, "tema"))
    case (Some(palavra), Some(resposta), Some(idioma), Some(tema)) =>
      Some(Card(Some(doc.documentID), palavra, resposta, idioma, tema, now))
    case _ => None
  }

  /** `snapshot.documents.compactMap { … }` for cards. */
  function DecodeCardDocuments(docs: seq<Document>, now: int): (r: seq<Card>)
    ensures |r| <= |docs|
  {
    if docs == [] then []
    else
      var rest := DecodeCardDocuments(docs[1..], now);
      match DecodeCardDocument(docs[0], now)
      case Some(c) => [c] + rest
      case None => rest
  }

  /** Every decodable document's card is kept, and nothing else. */
  lemma {:induction false} DecodedCardsAreTheDecodable(docs: seq<Document>, now: int)
    ensures forall c :: c in DecodeCardDocuments(docs, now) ==>
      exists d :: d in docs && DecodeCardDocument(d, now) == Some(c)
    ensures forall d :: d in docs && DecodeCardDocument(d, now).Some? ==>
      DecodeCardDocument(d, now).value in DecodeCardDocuments(docs, now)
    decreases |docs|
  {
    if docs != [] {
      DecodedCardsAreTheDecodable(docs[1..], now);
      assert forall d :: d in docs <==> d == docs[0] || d in docs[1..];
    }
  }

  /**
   * Decoding keeps document order: the cards of two runs of documents are the
   * cards of the first run followed by those of the second. With the singleton
   * case this says a malformed document is dropped alone.
   */
  lemma {:induction false} DecodeCardDocumentsAppend(a: seq<Document>, b: seq<Document>, now: int)
    ensures DecodeCardDocuments(a + b, now) == DecodeCardDocuments(a, now) + DecodeCardDocuments(b, now)
    decreases |a|
  {
    if a == [] {
      assert a + b == b;
    } else {
      assert (a + b)[0] == a[0] && (a + b)[1..] == a[1..] + b;
      DecodeCardDocumentsAppend(a[1..], b, now);
    }
  }

  lemma DecodeCardDocumentsSingle(d: Document, now: int)
    ensures DecodeCardDocuments([d], now) ==
      (if DecodeCardDocument(d, now).Some? then [DecodeCardDocument(d, now).value] else [])
  {
    assert [d][1..] == [];
  }

  /** `fetchCards(forceRefresh:)`: an error passes through, no snapshot gives neither value nor error. */
  function FetchCards(q: QueryResult, now: int): (r: Reply<seq<Card>>)
    ensures q.QueryError? ==> r == Reply(None, Some(q.error))
    ensures q.NilSnapshot? ==> r == Reply(None, None)
    ensures q.Snapshot? ==> r == Reply(Some(DecodeCardDocuments(q.documents, now)), None)
    ensures q.Snapshot? ==> |r.value.value| <= |q.documents|
  {
    match q
    case QueryError(e) => Reply(None, Some(e))
    case NilSnapshot => Reply(None, None)
    case Snapshot(docs) => Reply(Some(DecodeCardDocuments(docs, now)), None)
  }

  /**
   * The `compactMap` closure of `fetchIdiomas(forceRefresh:)`: `nome` a string
   * and `ativo` a bool; the date is the Timestamp if there is one, else `Date()`.
   */
  function DecodeIdiomaDocument(doc: Document, now: int): (r: Option<Idioma>)
    ensures r.Some? <==> StringField(doc.data, "nome").Some? && BoolField(doc.data, "ativo").Some?
    ensures r.Some? ==>
      && r.value.id == Some(doc.documentID)
      && doc.data["nome"] == FStr(r.value.nome)
      && BoolField(doc.data, "ativo") == Some(r.value.ativo)
      && ("dataCriacao" in doc.data && doc.data["dataCriacao"].FTimestamp? ==>
            r.value.dataCriacao == doc.data["dataCriacao"].seconds)
      && (!("dataCriacao" in doc.data && doc.data["dataCriacao"].FTimestamp?) ==> r.value.dataCriacao == now)
  {
    var d := doc.data;
    match (StringField(d, "nome"), BoolField(d, "ativo"))
    case (Some(nome), Some(ativo)) =>
      var dataCriacao := if "dataCriacao" in d && d["dataCriacao"].FTimestamp? then d["dataCriacao"].seconds else now;
      Some(Idioma(Some(doc.documentID), nome, ativo, dataCriacao))
    case _ => None
  }

  /** `snapshot.documents.compactMap { … }` for languages. */
  function DecodeIdiomaDocuments(docs: seq<Document>, now: int): (r: seq<Idioma>)
    ensures |r| <= |docs|
  {
    if docs == [] then []
    else
      var rest := DecodeIdiomaDocuments(docs[1..], now);
      match DecodeIdiomaDocument(docs[0], now)
      case Some(i) => [i] + rest
      case None => rest
  }

  /** Every decodable document's language is kept, and nothing else. */
  lemma {:induction false} DecodedIdiomasAreTheDecodable(docs: seq<Document>, now: int)
    ensures forall i :: i in DecodeIdiomaDocuments(docs, now) ==>
      exists d :: d in docs && DecodeIdiomaDocument(d, now) == Some(i)
    ensures forall d :: d in docs && DecodeIdiomaDocument(d, now).Some? ==>
      DecodeIdiomaDocument(d, now).value in DecodeIdiomaDocuments(docs, now)
    decreases |docs|
  {
    if docs != [] {
      DecodedIdiomasAreTheDecodable(docs[1..], now);
      assert forall d :: d in docs <==> d == docs[0] || d in docs[1..];
    }
  }

  /** Language decoding keeps document order, as card decoding does. */
  lemma {:induction false} DecodeIdiomaDocumentsAppend(a: seq<Document>, b: seq<Document>, now: int)
    ensures DecodeIdiomaDocuments(a + b, now) == DecodeIdiomaDocuments(a, now) + DecodeIdiomaDocuments(b, now)
    decreases |a|
  {
    if a == [] {
      assert a + b == b;
    } else {
      assert (a + b)[0] == a[0] && (a + b)[1..] == a[1..] + b;
      DecodeIdiomaDocumentsAppend(a[1..], b, now);
    }
  }

  /** A project ID the guard of `fetchIdiomas` accepts. */
  predicate ValidProject(projectId: Option<string>) {
    projectId.Some? && projectId.value != ""
  }

  /**
   * `fetchIdiomas(forceRefresh:)`: no query without a project ID; an error
   * gives an empty list with the error; no snapshot or no documents gives an
   * empty list and no error.
   */
  function FetchIdiomas(projectId: Option<string>, q: QueryResult, now: int): (r: Reply<seq<Idioma>>)
    ensures !ValidProject(projectId) ==> r == Reply(None, Some(InvalidConfiguration))
    ensures ValidProject(projectId) && q.QueryError? ==> r == Reply(Some([]), Some(q.error))
    ensures ValidProject(projectId) && (q.NilSnapshot? || (q.Snapshot? && q.documents == [])) ==> r == Reply(Some([]), None)
    ensures ValidProject(projectId) && q.Snapshot? ==>
      r == Reply(Some(DecodeIdiomaDocuments(q.documents, now)), None)
  {
    if !ValidProject(projectId) then Reply(None, Some(InvalidConfiguration))
    else
      match q
      case QueryError(e) => Reply(Some([]), Some(e))
      case NilSnapshot => Reply(Some([]), None)
      case Snapshot(docs) =>
        if docs == [] then Reply(Some([]), None)
        else Reply(Some(DecodeIdiomaDocuments(docs, now)), None)
  }

  /** Without a project ID the outcome does not depend on the collection at all. */
  lemma ConfigErrorIgnoresQuery(projectId: Option<string>, q1: QueryResult, q2: QueryResult, now: int)
    requires !ValidProject(projectId)
    ensures FetchIdiomas(projectId, q1, now) == FetchIdiomas(projectId, q2, now)
    ensures FetchIdiomas(projectId, q1, now).value.None?
  {
  }

  /**
   * `getDecksFromFirestore(forceRefresh:)`: a fetch error passes through with
   * no decks; no cards gives an empty list; otherwise the cards are grouped
   * (the loop of Grouping.GroupIntoDecks). `slots` says which deck is where.
   */
  method GetDecksFromFirestore(q: QueryResult, now: int, newId: nat -> Uuid)
    returns (decks: Option<seq<Deck>>, error: Option<FsError>, ghost slots: seq<Slot>)
    ensures var f := FetchCards(q, now);
      && (f.error.Some? ==> decks == None && error == f.error)
      && (f.error.None? && (f.value.None? || f.value.value == []) ==> decks == Some([]) && error == None)
      && (f.error.None? && f.value.Some? && f.value.value != [] ==>
            decks.Some? && error == None && GroupedAs(f.value.value, newId, decks.value, slots))
    ensures error.Some? <==> q.QueryError?
    ensures error.None? ==> decks.Some?
  {
    var fetched := FetchCards(q, now);
    slots := [];
    if fetched.error.Some? {
      return None, fetched.error, slots;
    }
    if fetched.value.None? || fetched.value.value == [] {
      return Some([]), None, slots;
    }
    var built;
    built, slots := GroupIntoDecks(fetched.value.value, newId);
    decks, error := Some(built), None;
  }
}
