/**
 * The progress ledger (DonkeyCards/Services/ProgressManager.swift): one
 * `DeckProgress` record per deck key, kept in a dictionary that is written
 * back to the device's preferences after every change.
 *
 * Re-answering a card overwrites its entry in the answer map but still bumps
 * a tally, so the tallies can run ahead of the number of answered cards; the
 * model keeps that behaviour and states exactly when the two agree.
 */
module Progress {
  import opened Wrappers

  /**
   * Swift's `DeckProgress` struct. Times are whole seconds; `ultimaInteracao`
   * is the time of the last answer or cursor move.
   */
  datatype DeckProgress = DeckProgress(
    id: string,
    cardsRespondidas: map<string, bool>,
    totalAcertos: int,
    totalErros: int,
    concluido: bool,
    dataConclusao: Option<int>,
    ultimaInteracao: int,
    ultimoCardIndex: int)

  /** `init(deckId:)`, with `Date()` read as `now`. */
  function NewDeckProgress(deckId: string, now: int): (p: DeckProgress)
    ensures p.id == deckId && p.cardsRespondidas == map[]
    ensures p.totalAcertos == 0 && p.totalErros == 0
    ensures !p.concluido && p.dataConclusao == None
    ensures p.ultimaInteracao == now && p.ultimoCardIndex == 0
    ensures TotalRespondidas(p) == 0 && Excess(p) == 0
  {
    DeckProgress(deckId, map[], 0, 0, false, None, now, 0)
  }

  /** `totalRespondidas`: the number of distinct cards answered. */
  function TotalRespondidas(p: DeckProgress): (r: nat)
    ensures r == |p.cardsRespondidas.Keys|
    ensures r == 0 <==> p.cardsRespondidas == map[]
  {
    |p.cardsRespondidas|
  }

  /** How far the two tallies together run ahead of the number of answered cards. */
  function Excess(p: DeckProgress): int {
    p.totalAcertos + p.totalErros - TotalRespondidas(p)
  }

  /**
   * `registrarResposta(cardId:acertou:)`: the card's entry becomes `acertou`,
   * one tally grows by one, and the interaction time is `now`.
   */
  function RegisterAnswer(p: DeckProgress, cardId: string, acertou: bool, now: int): (r: DeckProgress)
    ensures r.cardsRespondidas == p.cardsRespondidas[cardId := acertou]
    ensures cardId in r.cardsRespondidas && r.cardsRespondidas[cardId] == acertou
    ensures acertou ==> r.totalAcertos == p.totalAcertos + 1 && r.totalErros == p.totalErros
    ensures !acertou ==> r.totalErros == p.totalErros + 1 && r.totalAcertos == p.totalAcertos
    ensures r.ultimaInteracao == now
    ensures r.(cardsRespondidas := p.cardsRespondidas, totalAcertos := p.totalAcertos,
               totalErros := p.totalErros, ultimaInteracao := p.ultimaInteracao) == p
  {
    var tallied := if acertou then p.(totalAcertos := p.totalAcertos + 1)
                   else p.(totalErros := p.totalErros + 1);
    tallied.(cardsRespondidas := p.cardsRespondidas[cardId := acertou], ultimaInteracao := now)
  }

  /**
   * An answer to a new card moves the tallies and the count together; an
   * answer to a card already in the map moves only the tallies.
   */
  lemma RegisterAnswerExcess(p: DeckProgress, cardId: string, acertou: bool, now: int)
    ensures var r := RegisterAnswer(p, cardId, acertou, now);
      && TotalRespondidas(r) == TotalRespondidas(p) + (if cardId in p.cardsRespondidas then 0 else 1)
      && Excess(r) == Excess(p) + (if cardId in p.cardsRespondidas then 1 else 0)
  {
    var r := RegisterAnswer(p, cardId, acertou, now);
    if cardId in p.cardsRespondidas {
      assert r.cardsRespondidas.Keys == p.cardsRespondidas.Keys;
    } else {
      assert r.cardsRespondidas.Keys == p.cardsRespondidas.Keys + {cardId};
    }
  }

  /** `atualizarUltimoCard(index:)`. */
  function UpdateLastCard(p: DeckProgress, index: int, now: int): (r: DeckProgress)
    ensures r.ultimoCardIndex == index && r.ultimaInteracao == now
    ensures r.(ultimoCardIndex := p.ultimoCardIndex, ultimaInteracao := p.ultimaInteracao) == p
  {
    p.(ultimoCardIndex := index, ultimaInteracao := now)
  }

  /** `marcarComoConcluido()`: completed, and the completion date written only the first time. */
  function MarkCompleted(p: DeckProgress, now: int): (r: DeckProgress)
    ensures r.concluido
    ensures r.dataConclusao.Some?
    ensures p.dataConclusao.Some? ==> r.dataConclusao == p.dataConclusao
    ensures p.dataConclusao.None? ==> r.dataConclusao == Some(now)
    ensures r.(concluido := p.concluido, dataConclusao := p.dataConclusao) == p
  {
    if p.dataConclusao.None? then p.(concluido := true, dataConclusao := Some(now))
    else p.(concluido := true)
  }

  /** Marking a completed deck again changes nothing, whatever the time. */
  lemma MarkCompletedIdempotent(p: DeckProgress, t1: int, t2: int)
    ensures MarkCompleted(MarkCompleted(p, t1), t2) == MarkCompleted(p, t1)
  {
  }

  /**
   * `percentualAcertos`: hits per answered card, as a percentage; 0 when
   * nothing is answered. Computed on reals.
   */
  function PercentualAcertos(p: DeckProgress): (r: real)
    ensures TotalRespondidas(p) == 0 ==> r == 0.0
    ensures TotalRespondidas(p) > 0 ==> r * (TotalRespondidas(p) as real) == (p.totalAcertos as real) * 100.0
  {
    if TotalRespondidas(p) == 0 then 0.0
    else (p.totalAcertos as real) / (TotalRespondidas(p) as real) * 100.0
  }

  /** Answering the same card right twice on a fresh record reads as 200 percent. */
  lemma RepeatedHitExceedsHundred(deckId: string, cardId: string, now: int)
    ensures PercentualAcertos(
      RegisterAnswer(RegisterAnswer(NewDeckProgress(deckId, now), cardId, true, now), cardId, true, now)) == 200.0
  {
    var p := RegisterAnswer(RegisterAnswer(NewDeckProgress(deckId, now), cardId, true, now), cardId, true, now);
    assert p.cardsRespondidas == map[cardId := true];
    assert TotalRespondidas(p) == 1;
  }

  /** One answer to be registered: card key, outcome and the time it is given. */
  datatype Answer = Answer(cardId: string, acertou: bool, at: int)

  /** The record after registering the answers in order. */
  function ApplyAnswers(p: DeckProgress, answers: seq<Answer>): DeckProgress
    decreases |answers|
  {
    if answers == [] then p
    else
      var last := answers[|answers| - 1];
      RegisterAnswer(ApplyAnswers(p, answers[..|answers| - 1]), last.cardId, last.acertou, last.at)
  }

  function CardIds(answers: seq<Answer>): set<string> {
    set i | 0 <= i < |answers| :: answers[i].cardId
  }

  /** No card is answered twice, and none is among `keys`. */
  predicate FirstAnswers(keys: set<string>, answers: seq<Answer>) {
    && (forall i, j :: 0 <= i < j < |answers| ==> answers[i].cardId != answers[j].cardId)
    && (forall i :: 0 <= i < |answers| ==> answers[i].cardId !in keys)
  }

  lemma CardIdsSnoc(answers: seq<Answer>)
    requires answers != []
    ensures CardIds(answers) == CardIds(answers[..|answers| - 1]) + {answers[|answers| - 1].cardId}
  {
    var n := |answers| - 1;
    var init := answers[..n];
    forall x | x in CardIds(answers) ensures x in CardIds(init) + {answers[n].cardId} {
      var i :| 0 <= i < |answers| && answers[i].cardId == x;
      if i < n { assert init[i].cardId == x; }
    }
    forall x | x in CardIds(init) ensures x in CardIds(answers) {
      var i :| 0 <= i < n && init[i].cardId == x;
      assert answers[i].cardId == x;
    }
  }

  /**
   * The tallies grow by the number of answers, and the answered-card map lists
   * exactly the old cards plus the answered ones.
   */
  lemma {:induction false} ApplyAnswersTallies(p: DeckProgress, answers: seq<Answer>)
    ensures var r := ApplyAnswers(p, answers);
      && r.totalAcertos + r.totalErros == p.totalAcertos + p.totalErros + |answers|
      && r.cardsRespondidas.Keys == p.cardsRespondidas.Keys + CardIds(answers)
    decreases |answers|
  {
    if answers != [] {
      var n := |answers| - 1;
      ApplyAnswersTallies(p, answers[..n]);
      CardIdsSnoc(answers);
    }
  }

  /** The answers are first answers exactly when all but the last are, and the last names a card not seen before. */
  lemma FirstAnswersSnoc(keys: set<string>, answers: seq<Answer>)
    requires answers != []
    ensures var n := |answers| - 1;
      FirstAnswers(keys, answers) <==>
        FirstAnswers(keys, answers[..n]) && answers[n].cardId !in keys && answers[n].cardId !in CardIds(answers[..n])
  {
    var n := |answers| - 1;
    var init := answers[..n];
    var last := answers[n].cardId;
    if FirstAnswers(keys, answers) {
      forall i, j | 0 <= i < j < n ensures init[i].cardId != init[j].cardId {
        assert init[i] == answers[i] && init[j] == answers[j];
      }
    }
    if FirstAnswers(keys, init) && last !in keys && last !in CardIds(init) {
      forall i | 0 <= i < n ensures answers[i].cardId != last && answers[i].cardId !in keys {
        assert answers[i] == init[i];
        assert init[i].cardId in CardIds(init);
      }
    }
  }

  /**
   * Of `answers`, at most `|answers|` name a card outside `keys`, and exactly
   * `|answers|` do when the answers are first answers.
   */
  lemma {:induction false} NewCardsBound(keys: set<string>, answers: seq<Answer>)
    ensures |CardIds(answers) - keys| <= |answers|
    ensures |CardIds(answers) - keys| == |answers| <==> FirstAnswers(keys, answers)
    decreases |answers|
  {
    if answers == [] {
      assert CardIds(answers) == {};
    } else {
      var n := |answers| - 1;
      var init := answers[..n];
      var last := answers[n].cardId;
      NewCardsBound(keys, init);
      CardIdsSnoc(answers);
      FirstAnswersSnoc(keys, answers);
      var s0 := CardIds(init) - keys;
      if last in keys || last in CardIds(init) {
        assert CardIds(answers) - keys == s0;
      } else {
        assert CardIds(answers) - keys == s0 + {last};
      }
    }
  }

  /**
   * Registering answers raises the excess by the number of answers that found
   * their card already answered: it stays put exactly for first answers and
   * grows otherwise.
   */
  lemma ApplyAnswersExcess(p: DeckProgress, answers: seq<Answer>)
    ensures var r := ApplyAnswers(p, answers);
      && Excess(r) == Excess(p) + |answers| - |CardIds(answers) - p.cardsRespondidas.Keys|
      && (FirstAnswers(p.cardsRespondidas.Keys, answers) <==> Excess(r) == Excess(p))
      && Excess(r) >= Excess(p)
  {
    var k := p.cardsRespondidas.Keys;
    ApplyAnswersTallies(p, answers);
    NewCardsBound(k, answers);
    var r := ApplyAnswers(p, answers);
    assert r.cardsRespondidas.Keys == k + (CardIds(answers) - k);
    assert |r.cardsRespondidas.Keys| == |k| + |CardIds(answers) - k|;
  }

  /**
   * For a deck's answer history from a fresh record, `totalAcertos +
   * totalErros == totalRespondidas` holds exactly when no card was answered
   * twice; otherwise the tallies exceed the count.
   */
  lemma TallyMatchesCountIff(deckId: string, now: int, answers: seq<Answer>)
    ensures var r := ApplyAnswers(NewDeckProgress(deckId, now), answers);
      && (r.totalAcertos + r.totalErros == TotalRespondidas(r) <==>
          forall i, j :: 0 <= i < j < |answers| ==> answers[i].cardId != answers[j].cardId)
      && r.totalAcertos + r.totalErros >= TotalRespondidas(r)
  {
    ApplyAnswersExcess(NewDeckProgress(deckId, now), answers);
  }

  // The ledger as a map from deck key to record, and its operations on that map.

  type Ledger = map<string, DeckProgress>

  /** The record `getProgress(for:)` returns: the stored one, or a fresh one. */
  function Lookup(m: Ledger, deckId: string, now: int): (p: DeckProgress)
    ensures deckId in m ==> p == m[deckId]
    ensures deckId !in m ==> p == NewDeckProgress(deckId, now)
  {
    if deckId in m then m[deckId] else NewDeckProgress(deckId, now)
  }

  /** The ledger after `getProgress(for:)`: a fresh record inserted for an absent key. */
  function Ensure(m: Ledger, deckId: string, now: int): (r: Ledger)
    ensures r.Keys == m.Keys + {deckId}
    ensures r[deckId] == Lookup(m, deckId, now)
    ensures forall k :: k in m ==> r[k] == m[k]
  {
    if deckId in m then m else m[deckId := NewDeckProgress(deckId, now)]
  }

  /** Writing a record over the one `getProgress(for:)` may have inserted is writing it. */
  lemma SetAfterEnsure(m: Ledger, deckId: string, now: int, p: DeckProgress)
    ensures Ensure(m, deckId, now)[deckId := p] == m[deckId := p]
  {
  }

  /** The records of `m` other than `deckId`'s are those of `r`, and `r` has `deckId`. */
  predicate OnlyDeckChanged(m: Ledger, r: Ledger, deckId: string) {
    && r.Keys == m.Keys + {deckId}
    && forall k :: k in m && k != deckId ==> r[k] == m[k]
  }

  /** `ProgressManager.registrarResposta(deckId:cardId:acertou:)` on the map. */
  function RecordAnswerIn(m: Ledger, deckId: string, cardId: string, acertou: bool, now: int): (r: Ledger)
    ensures OnlyDeckChanged(m, r, deckId)
    ensures r[deckId] == RegisterAnswer(Lookup(m, deckId, now), cardId, acertou, now)
  {
    m[deckId := RegisterAnswer(Lookup(m, deckId, now), cardId, acertou, now)]
  }

  /** `salvarUltimoCardIndex(deckId:index:)` on the map. */
  function SaveLastCardIn(m: Ledger, deckId: string, index: int, now: int): (r: Ledger)
    ensures OnlyDeckChanged(m, r, deckId)
    ensures r[deckId].ultimoCardIndex == index
    ensures r[deckId] == UpdateLastCard(Lookup(m, deckId, now), index, now)
  {
    m[deckId := UpdateLastCard(Lookup(m, deckId, now), index, now)]
  }

  /** Whether `verificarConclusao(deckId:totalCards:)` marks the deck. */
  predicate Completes(m: Ledger, deckId: string, totalCards: int, now: int) {
    TotalRespondidas(Lookup(m, deckId, now)) >= totalCards
  }

  /**
   * `verificarConclusao(deckId:totalCards:)` on the map: the deck is marked
   * complete when at least `totalCards` cards are answered; otherwise only the
   * lookup's fresh record (if any) is left behind.
   */
  function CheckCompletionIn(m: Ledger, deckId: string, totalCards: int, now: int): (r: Ledger)
    ensures OnlyDeckChanged(m, r, deckId)
    ensures Completes(m, deckId, totalCards, now) ==> r[deckId] == MarkCompleted(Lookup(m, deckId, now), now)
    ensures !Completes(m, deckId, totalCards, now) ==> r == Ensure(m, deckId, now)
    ensures r[deckId].concluido <==> Completes(m, deckId, totalCards, now) || Lookup(m, deckId, now).concluido
  {
    var p := Lookup(m, deckId, now);
    if TotalRespondidas(p) >= totalCards then m[deckId := MarkCompleted(p, now)]
    else Ensure(m, deckId, now)
  }

  /** A deck with no cards is complete as soon as it is checked. */
  lemma EmptyDeckCompletes(m: Ledger, deckId: string, now: int)
    ensures var r := CheckCompletionIn(m, deckId, 0, now);
      r[deckId].concluido && r[deckId].dataConclusao.Some?
  {
  }

  /** `resetarProgresso(for:)` on the map. */
  function ResetIn(m: Ledger, deckId: string, now: int): (r: Ledger)
    ensures OnlyDeckChanged(m, r, deckId)
    ensures r[deckId] == NewDeckProgress(deckId, now)
  {
    m[deckId := NewDeckProgress(deckId, now)]
  }

  /** After a reset, `getProgress` hands back an empty record and stores nothing new. */
  lemma ResetThenLookup(m: Ledger, deckId: string, t1: int, t2: int)
    ensures Lookup(ResetIn(m, deckId, t1), deckId, t2) == NewDeckProgress(deckId, t1)
    ensures Ensure(ResetIn(m, deckId, t1), deckId, t2) == ResetIn(m, deckId, t1)
  {
  }

  /** `getDecksConcluidos()`, as a set of keys. */
  function CompletedDecks(m: Ledger): (s: set<string>)
    ensures forall k :: k in s <==> k in m && m[k].concluido
  {
    set k | k in m && m[k].concluido
  }

  /** The ledger operations other than the two resets. */
  datatype Op =
    | GetOp(deckId: string)
    | RecordAnswerOp(deckId: string, cardId: string, acertou: bool)
    | SaveLastCardOp(deckId: string, index: int)
    | CheckCompletionOp(deckId: string, totalCards: int)

  function Step(m: Ledger, op: Op, now: int): (r: Ledger)
    ensures OnlyDeckChanged(m, r, op.deckId)
  {
    match op
    case GetOp(d) => Ensure(m, d, now)
    case RecordAnswerOp(d, c, a) => RecordAnswerIn(m, d, c, a, now)
    case SaveLastCardOp(d, i) => SaveLastCardIn(m, d, i, now)
    case CheckCompletionOp(d, n) => CheckCompletionIn(m, d, n, now)
  }

  /** If deck `k` is complete in `old_`, it is still there and complete in `new_`. */
  predicate StaysCompleted(old_: Ledger, new_: Ledger, k: string) {
    k in old_ && old_[k].concluido ==> k in new_ && new_[k].concluido
  }

  /** One operation never un-completes a deck nor moves a completion date once written. */
  lemma StepKeepsCompletion(m: Ledger, op: Op, now: int, k: string)
    ensures StaysCompleted(m, Step(m, op, now), k)
    ensures k in m && m[k].dataConclusao.Some? ==> Step(m, op, now)[k].dataConclusao == m[k].dataConclusao
  {
    if k in m && k == op.deckId {
      var p := m[k];
      assert Lookup(m, k, now) == p;
      var q := Step(m, op, now)[k];
      match op
      case GetOp(_) =>
      case RecordAnswerOp(_, c, a) =>
        assert q == RegisterAnswer(p, c, a, now);
      case SaveLastCardOp(_, i) =>
        assert q == UpdateLastCard(p, i, now);
      case CheckCompletionOp(_, n) =>
        if p.concluido { assert Completes(m, k, n, now) ==> q == MarkCompleted(p, now); }
    }
  }

  /** Apply the operations in order, the `i`-th at time `times[i]`. */
  function Run(m: Ledger, ops: seq<Op>, times: seq<int>): Ledger
    requires |ops| == |times|
    decreases |ops|
  {
    if ops == [] then m
    else Run(Step(m, ops[0], times[0]), ops[1..], times[1..])
  }

  /**
   * Over any run of operations without a reset, completion never reverts, the
   * set of completed decks only grows, and a completion date never changes.
   */
  lemma {:induction false} RunKeepsCompletion(m: Ledger, ops: seq<Op>, times: seq<int>)
    requires |ops| == |times|
    ensures forall k :: StaysCompleted(m, Run(m, ops, times), k)
    ensures CompletedDecks(m) <= CompletedDecks(Run(m, ops, times))
    ensures forall k :: k in m && m[k].dataConclusao.Some? ==>
      k in Run(m, ops, times) && Run(m, ops, times)[k].dataConclusao == m[k].dataConclusao
    decreases |ops|
  {
    var r := Run(m, ops, times);
    if ops != [] {
      var m1 := Step(m, ops[0], times[0]);
      assert r == Run(m1, ops[1..], times[1..]);
      RunKeepsCompletion(m1, ops[1..], times[1..]);
      forall k
        ensures StaysCompleted(m, r, k)
        ensures k in m && m[k].dataConclusao.Some? ==> k in r && r[k].dataConclusao == m[k].dataConclusao
      {
        StepKeepsCompletion(m, ops[0], times[0], k);
      }
    }
    assert CompletedDecks(m) <= CompletedDecks(r);
  }

  /**
   * `ProgressManager`: the in-memory dictionary and its persisted copy under
   * the deck-progress preferences key (`None` when nothing readable is stored).
   * Every change writes the whole dictionary back.
   */
  class ProgressManager {
    var allProgress: Ledger
    var saved: Option<Ledger>

    /** After a write-back, the stored copy is the dictionary. */
    predicate Synced()
      reads this
    {
      saved == Some(allProgress)
    }

    /** `init()` through `loadAllProgress()`: the stored dictionary, or an empty one. */
    constructor(stored: Option<Ledger>)
      ensures allProgress == stored.GetOr(map[])
      ensures saved == stored
    {
      allProgress := stored.GetOr(map[]);
      saved := stored;
    }

    /** `getProgress(for:)`: an absent key gets a fresh record, which is stored and saved. */
    method GetProgress(deckId: string, now: int) returns (p: DeckProgress)
      modifies this
      ensures p == Lookup(old(allProgress), deckId, now)
      ensures allProgress == Ensure(old(allProgress), deckId, now)
      ensures deckId in old(allProgress) ==> saved == old(saved)
      ensures deckId !in old(allProgress) ==> Synced()
    {
      if deckId in allProgress {
        p := allProgress[deckId];
      } else {
        p := NewDeckProgress(deckId, now);
        allProgress := allProgress[deckId := p];
        saved := Some(allProgress);
      }
    }

    /** `registrarResposta(deckId:cardId:acertou:)`. */
    method RegistrarResposta(deckId: string, cardId: string, acertou: bool, now: int)
      modifies this
      ensures allProgress == RecordAnswerIn(old(allProgress), deckId, cardId, acertou, now)
      ensures Synced()
    {
      ghost var m0 := allProgress;
      var progress := GetProgress(deckId, now);
      progress := RegisterAnswer(progress, cardId, acertou, now);
      SetAfterEnsure(m0, deckId, now, progress);
      allProgress := allProgress[deckId := progress];
      saved := Some(allProgress);
    }

    /** `salvarUltimoCardIndex(deckId:index:)`. */
    method SalvarUltimoCardIndex(deckId: string, index: int, now: int)
      modifies this
      ensures allProgress == SaveLastCardIn(old(allProgress), deckId, index, now)
      ensures Synced()
    {
      ghost var m0 := allProgress;
      var progress := GetProgress(deckId, now);
      progress := UpdateLastCard(progress, index, now);
      SetAfterEnsure(m0, deckId, now, progress);
      allProgress := allProgress[deckId := progress];
      saved := Some(allProgress);
    }

    /** `verificarConclusao(deckId:totalCards:)`. */
    method VerificarConclusao(deckId: string, totalCards: int, now: int)
      modifies this
      ensures allProgress == CheckCompletionIn(old(allProgress), deckId, totalCards, now)
      ensures Completes(old(allProgress), deckId, totalCards, now) || deckId !in old(allProgress) ==> Synced()
      ensures !Completes(old(allProgress), deckId, totalCards, now) && deckId in old(allProgress) ==> saved == old(saved)
    {
      ghost var m0 := allProgress;
      var progress := GetProgress(deckId, now);
      if TotalRespondidas(progress) >= totalCards {
        progress := MarkCompleted(progress, now);
        SetAfterEnsure(m0, deckId, now, progress);
        allProgress := allProgress[deckId := progress];
        saved := Some(allProgress);
      }
    }

    /** `resetarProgresso(for:)`. */
    method ResetarProgresso(deckId: string, now: int)
      modifies this
      ensures allProgress == ResetIn(old(allProgress), deckId, now)
      ensures Synced()
    {
      allProgress := allProgress[deckId := NewDeckProgress(deckId, now)];
      saved := Some(allProgress);
    }

    /** `resetarTodoProgresso()`. */
    method ResetarTodoProgresso()
      modifies this
      ensures allProgress == map[]
      ensures Synced()
    {
      allProgress := map[];
      saved := Some(allProgress);
    }

    /**
     * `getDecksConcluidos()`: the keys of the completed records, each once, in
     * the dictionary's (unspecified) order.
     */
    method GetDecksConcluidos() returns (ids: seq<string>)
      ensures forall k :: k in ids <==> k in allProgress && allProgress[k].concluido
      ensures forall i, j :: 0 <= i < j < |ids| ==> ids[i] != ids[j]
    {
      ids := [];
      var rest := allProgress.Keys;
      while rest != {}
        invariant rest <= allProgress.Keys
        invariant forall k :: k in ids <==> k in allProgress && k !in rest && allProgress[k].concluido
        invariant forall i, j :: 0 <= i < j < |ids| ==> ids[i] != ids[j]
        decreases |rest|
      {
        var k :| k in rest;
        if allProgress[k].concluido {
          ids := ids + [k];
        }
        rest := rest - {k};
      }
    }
  }
}
