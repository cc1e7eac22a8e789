/**
 * The study session (DonkeyCards/ViewModels/MainViewModel.swift): the deck
 * on screen, the card cursor, the hit and miss counters, and how answering,
 * advancing, selecting and resetting move them and the progress ledger.
 */
module Study {
  import opened Wrappers
  import opened Text
  import opened Cards
  import opened Decks
  import opened Progress
  import opened Cache

  /** `currentCard`: the card under the cursor, if the cursor is on a card. */
  function CurrentCard(deck: Option<Deck>, index: int): (r: Option<Card>)
    ensures r.None? <==> deck.None? || deck.value.cards == [] || !(0 <= index < |deck.value.cards|)
    ensures r.Some? ==> r.value == deck.value.cards[index] && r.value in deck.value.cards
  {
    if deck.Some? && deck.value.cards != [] && 0 <= index < |deck.value.cards| then Some(deck.value.cards[index])
    else None
  }

  /** `isLastCard`: a non-empty deck with the cursor past its cards. */
  function IsLastCard(deck: Option<Deck>, index: int): (r: bool)
    ensures r ==> CurrentCard(deck, index).None? && deck.Some?
    ensures r <==> deck.Some? && |deck.value.cards| > 0 && index >= |deck.value.cards|
  {
    deck.Some? && |deck.value.cards| > 0 && index >= |deck.value.cards|
  }

  /** The cursor `loadDeckProgress` restores: the saved one, or 0 when it is past the deck. */
  function RestoredIndex(saved: int, count: int): (r: int)
    ensures saved < count ==> r == saved
    ensures saved >= count ==> r == 0
    ensures count > 0 ==> r < count
    ensures saved >= 0 ==> r >= 0
  {
    if saved >= count then 0 else saved
  }

  /** `max(0, min(index, count - 1))`: a cursor on the deck, or 0 for an empty deck. */
  function ClampIndex(index: int, count: int): (r: int)
    ensures r >= 0
    ensures count > 0 ==> r < count
    ensures 0 <= index < count ==> r == index
    ensures count <= 0 ==> r == 0
  {
    if index > count - 1 then (if count - 1 > 0 then count - 1 else 0)
    else if index > 0 then index else 0
  }

  /**
   * `moveToNextCard()` on a non-empty deck, as a new ledger and cursor: one
   * step forward; at the last card the deck is checked for completion and the
   * cursor reloaded from the ledger. Either way the cursor is saved.
   */
  function NextCard(m: Ledger, key: string, count: int, index: int, now: int): (r: (Ledger, int))
    requires count > 0
    ensures OnlyDeckChanged(m, r.0, key)
    ensures r.0[key].ultimoCardIndex == r.1
    ensures index < count - 1 ==> r.1 == index + 1
    ensures r.1 < count
    ensures r.0[key].totalAcertos == Lookup(m, key, now).totalAcertos
    ensures r.0[key].totalErros == Lookup(m, key, now).totalErros
    ensures r.0[key].cardsRespondidas == Lookup(m, key, now).cardsRespondidas
  {
    if index < count - 1 then (SaveLastCardIn(m, key, index + 1, now), index + 1)
    else
      var m2 := CheckCompletionIn(m, key, count, now);
      var i := RestoredIndex(m2[key].ultimoCardIndex, count);
      (SaveLastCardIn(m2, key, i, now), i)
  }

  /** After any advance the cursor is on a card of the non-empty deck: `isLastCard` is false. */
  lemma NextCardNeverPastEnd(m: Ledger, deck: Deck, index: int, now: int)
    requires |deck.cards| > 0
    requires 0 <= index && (Decks.StorageId(deck) in m ==> m[Decks.StorageId(deck)].ultimoCardIndex >= 0)
    ensures var r := NextCard(m, Decks.StorageId(deck), |deck.cards|, index, now);
      && !IsLastCard(Some(deck), r.1)
      && CurrentCard(Some(deck), r.1).Some?
  {
    var key := Decks.StorageId(deck);
    var n := |deck.cards|;
    if index >= n - 1 {
      var m2 := CheckCompletionIn(m, key, n, now);
      assert m2[key].ultimoCardIndex == Lookup(m, key, now).ultimoCardIndex;
    }
  }

  /**
   * On the last card, with the ledger holding that cursor (as every advance
   * leaves it), advancing keeps the cursor on the last card, and the deck is
   * checked for completion.
   */
  lemma NextCardStaysOnLast(m: Ledger, key: string, count: int, now: int)
    requires count > 0 && key in m && m[key].ultimoCardIndex == count - 1
    ensures NextCard(m, key, count, count - 1, now).1 == count - 1
    ensures NextCard(m, key, count, count - 1, now).0[key].concluido <==>
      TotalRespondidas(m[key]) >= count || m[key].concluido
  {
    var m2 := CheckCompletionIn(m, key, count, now);
    assert m2[key].ultimoCardIndex == m[key].ultimoCardIndex;
  }

  /** `ThemesForLanguage`'s topics: those of `language`'s decks, "Todos" dropped, in deck order. */
  function LanguageTopics(allDecks: seq<Deck>, language: string): (r: seq<string>)
    ensures forall t :: t in r <==> t != "Todos" && exists d :: d in allDecks && d.idioma == language && d.tema == t
  {
    if allDecks == [] then []
    else
      var d := allDecks[0];
      var rest := LanguageTopics(allDecks[1..], language);
      assert forall e :: e in allDecks <==> e == d || e in allDecks[1..];
      if d.idioma == language && d.tema != "Todos" then [d.tema] + rest else rest
  }

  /**
   * `themesForLanguage(_:)`: the language's distinct topics other than
   * "Todos", sorted, and then a single "Todos".
   */
  function ThemesForLanguage(allDecks: seq<Deck>, language: string): (r: seq<string>)
    ensures |r| >= 1 && r[|r| - 1] == "Todos"
    ensures StrictlySorted(r[..|r| - 1])
    ensures "Todos" !in r[..|r| - 1]
    ensures forall t :: t != "Todos" ==>
      (t in r <==> exists d :: d in allDecks && d.idioma == language && d.tema == t)
  {
    var themes := SortedDistinct(LanguageTopics(allDecks, language));
    var r := themes + ["Todos"];
    assert r[..|r| - 1] == themes;
    r
  }

  /** `shouldUpdateTheme(key:)`: never updated, or last updated more than three hours ago. */
  function ShouldUpdateTheme(lastUpdate: Option<int>, now: int): (r: bool)
    ensures lastUpdate.None? ==> r
    ensures lastUpdate.Some? ==> (r <==> now - lastUpdate.value > 10800)
  {
    match lastUpdate
    case None => true
    case Some(t) => t < now - 10800
  }

  /** Exactly three hours after an update the topic is not yet due, unlike the six-hour deck gate at its bound. */
  lemma ThemeGateIsStrict(t: int)
    ensures !ShouldUpdateTheme(Some(t), t + 10800)
    ensures ShouldUpdateTheme(Some(t), t + 10801)
  {
  }

  const RefreshAvailable: string := "Atualização disponível"

  /** The wait message for `remaining` seconds, in whole hours and minutes. */
  function WaitMessage(remaining: nat): (r: string)
    ensures "Próxima atualização disponível em " <= r
    ensures |r| >= 3 && r[|r| - 3..] == "min"
  {
    "Próxima atualização disponível em " + NatToString(remaining / 3600) + "h "
      + NatToString(remaining % 3600 / 60) + "min"
  }

  /**
   * `updateRefreshStatus()` as the message and the refresh flag it sets for
   * the time left, as `timeUntilNextUpdate()` reports it.
   */
  function RefreshStatus(remaining: Option<int>): (r: (string, bool))
    ensures r.1 <==> remaining.None? || remaining.value <= 0
    ensures r.1 ==> r.0 == RefreshAvailable
    ensures !r.1 ==> r.0 == WaitMessage(remaining.value)
  {
    match remaining
    case Some(t) => if t > 0 then (WaitMessage(t), false) else (RefreshAvailable, true)
    case None => (RefreshAvailable, true)
  }

  /** The hours and minutes in the wait message are what is left, rounded down to the minute. */
  lemma WaitMessageParts(remaining: nat)
    ensures var h := remaining / 3600; var m := remaining % 3600 / 60;
      && m < 60
      && h * 3600 + m * 60 <= remaining < h * 3600 + m * 60 + 60
  {
  }

  /** The refresh button is enabled exactly when the six-hour deck gate is open. */
  lemma RefreshEnabledIffGateOpen(d: Defaults, now: int)
    ensures RefreshStatus(TimeUntilNextUpdate(d, now)).1 <==> ShouldUpdate(d, now)
  {
    ShouldUpdateIffNoTimeLeft(d, now);
  }

  /** A ledger check right after `getProgress` is the same as the check alone. */
  lemma CheckAfterEnsure(m: Ledger, key: string, count: int, now: int)
    ensures CheckCompletionIn(Ensure(m, key, now), key, count, now) == CheckCompletionIn(m, key, count, now)
  {
    if key !in m {
      var p := NewDeckProgress(key, now);
      assert Lookup(Ensure(m, key, now), key, now) == p;
      if TotalRespondidas(p) >= count {
        assert Ensure(m, key, now)[key := MarkCompleted(p, now)] == m[key := MarkCompleted(p, now)];
      }
    }
  }

  /** Saving cursor 0 right after a reset leaves the fresh record as it is. */
  lemma SaveZeroAfterReset(m: Ledger, key: string, now: int)
    ensures SaveLastCardIn(ResetIn(m, key, now), key, 0, now) == ResetIn(m, key, now)
  {
    var p := NewDeckProgress(key, now);
    assert UpdateLastCard(p, 0, now) == p;
  }

  /** `MainViewModel`: the fields the non-UI methods read and write. */
  class MainViewModel {
    var decks: seq<Deck>
    var allDecks: seq<Deck>
    var currentDeck: Option<Deck>
    var currentCardIndex: int
    var correctCount: int
    var incorrectCount: int
    var isShowingMenu: bool
    var currentDeckProgress: Option<DeckProgress>
    var canRefreshData: bool
    var timeUntilNextUpdateMessage: string
    /** `ProgressManager.shared`. */
    const ledger: ProgressManager
    /** `DataService.shared`. */
    const dataService: DataService

    /** The fields none of the session methods touch. */
    twostate predicate ListsAndBannerUnchanged()
      reads this
    {
      && decks == old(decks) && allDecks == old(allDecks)
      && canRefreshData == old(canRefreshData)
      && timeUntilNextUpdateMessage == old(timeUntilNextUpdateMessage)
    }

    /** The stored properties' initial values; loading the languages is left out. */
    constructor(ledger: ProgressManager, dataService: DataService)
      ensures this.ledger == ledger && this.dataService == dataService
      ensures decks == [] && allDecks == [] && currentDeck == None && currentDeckProgress == None
      ensures currentCardIndex == 0 && correctCount == 0 && incorrectCount == 0
      ensures !isShowingMenu && !canRefreshData && timeUntilNextUpdateMessage == ""
    {
      this.ledger := ledger;
      this.dataService := dataService;
      decks, allDecks, currentDeck, currentDeckProgress := [], [], None, None;
      currentCardIndex, correctCount, incorrectCount := 0, 0, 0;
      isShowingMenu, canRefreshData, timeUntilNextUpdateMessage := false, false, "";
    }

    /**
     * `loadDeckProgress()`: the deck's record (created if absent) is shown, its
     * saved cursor restored, and the counters set to its tallies.
     */
    method LoadDeckProgress(now: int)
      modifies this, ledger
      ensures ListsAndBannerUnchanged() && currentDeck == old(currentDeck) && isShowingMenu == old(isShowingMenu)
      ensures old(currentDeck).None? ==> unchanged(this) && unchanged(ledger)
      ensures old(currentDeck).Some? ==>
        var deck := currentDeck.value;
        var p := Lookup(old(ledger.allProgress), Decks.StorageId(deck), now);
        && ledger.allProgress == Ensure(old(ledger.allProgress), Decks.StorageId(deck), now)
        && (Decks.StorageId(deck) in old(ledger.allProgress) ==> ledger.saved == old(ledger.saved))
        && (Decks.StorageId(deck) !in old(ledger.allProgress) ==> ledger.Synced())
        && currentDeckProgress == Some(p)
        && currentCardIndex == RestoredIndex(p.ultimoCardIndex, |deck.cards|)
        && correctCount == p.totalAcertos && incorrectCount == p.totalErros
    {
      if currentDeck.None? {
        return;
      }
      var deck := currentDeck.value;
      var progress := ledger.GetProgress(Decks.StorageId(deck), now);
      currentDeckProgress := Some(progress);
      currentCardIndex := progress.ultimoCardIndex;
      if currentCardIndex >= |deck.cards| {
        currentCardIndex := 0;
      }
      correctCount := progress.totalAcertos;
      incorrectCount := progress.totalErros;
    }

    /**
     * `selectDeck(_:)`. The same deck key changes nothing. Otherwise the
     * outgoing deck's cursor is saved, the new deck's progress loaded and its
     * completion checked; a deck that was already complete when loaded gets its
     * cursor clamped onto its cards. The menu closes.
     */
    method SelectDeck(deck: Deck, now: int)
      modifies this, ledger
      ensures ListsAndBannerUnchanged()
      ensures SelectedFrom(deck, now)
    {
      if currentDeck.Some? && Decks.StorageId(currentDeck.value) == Decks.StorageId(deck) {
        return;
      }
      if currentDeck.Some? {
        ledger.SalvarUltimoCardIndex(Decks.StorageId(currentDeck.value), currentCardIndex, now);
      }
      ghost var m1 := ledger.allProgress;
      currentDeck := Some(deck);
      LoadDeckProgress(now);
      ledger.VerificarConclusao(Decks.StorageId(deck), |deck.cards|, now);
      CheckAfterEnsure(m1, Decks.StorageId(deck), |deck.cards|, now);
      if currentDeckProgress.Some? && currentDeckProgress.value.concluido {
        currentCardIndex := ClampIndex(currentCardIndex, |deck.cards|);
      }
      isShowingMenu := false;
    }

    /**
     * The state `selectDeck(deck)` leaves, against the state it started from:
     * nothing changed for the deck already on screen (same key); otherwise the
     * outgoing cursor saved, the new deck's record loaded and checked, the
     * cursor restored (and clamped for a deck complete when loaded), the
     * counters at the record's tallies and the menu closed.
     */
    twostate predicate SelectedFrom(deck: Deck, now: int)
      reads this, ledger
    {
      && (old(currentDeck).Some? && Decks.StorageId(old(currentDeck).value) == Decks.StorageId(deck) ==>
        unchanged(this) && unchanged(ledger))
      && (!(old(currentDeck).Some? && Decks.StorageId(old(currentDeck).value) == Decks.StorageId(deck)) ==>
        var m1 := if old(currentDeck).Some? then
            SaveLastCardIn(old(ledger.allProgress), Decks.StorageId(old(currentDeck).value), old(currentCardIndex), now)
          else old(ledger.allProgress);
        var key := Decks.StorageId(deck);
        var n := |deck.cards|;
        var p := Lookup(m1, key, now);
        var i := RestoredIndex(p.ultimoCardIndex, n);
        && currentDeck == Some(deck)
        && ledger.allProgress == CheckCompletionIn(m1, key, n, now)
        && currentDeckProgress == Some(p)
        && correctCount == p.totalAcertos && incorrectCount == p.totalErros
        && currentCardIndex == (if p.concluido then ClampIndex(i, n) else i)
        && !isShowingMenu
        && (old(currentDeck).Some? || key !in m1 || Completes(m1, key, n, now) ==> ledger.Synced())
        && (!(old(currentDeck).Some? || key !in m1 || Completes(m1, key, n, now)) ==> ledger.saved == old(ledger.saved)))
      && (old(currentDeck).Some? && Decks.StorageId(old(currentDeck).value) != Decks.StorageId(deck) ==>
        var k := Decks.StorageId(old(currentDeck).value);
        k in ledger.allProgress && ledger.allProgress[k].ultimoCardIndex == old(currentCardIndex))
    }

    /** `updateSelectedDeck()`: select the first deck shown, or clear the session. */
    method UpdateSelectedDeck(now: int)
      modifies this, ledger
      ensures ListsAndBannerUnchanged()
      ensures decks == [] ==>
        && currentDeck == None && currentDeckProgress == None
        && currentCardIndex == 0 && correctCount == 0 && incorrectCount == 0
        && unchanged(ledger) && isShowingMenu == old(isShowingMenu)
      ensures decks != [] ==> SelectedFrom(decks[0], now)
    {
      if decks != [] {
        SelectDeck(decks[0], now);
      } else {
        currentDeck := None;
        currentCardIndex := 0;
        correctCount := 0;
        incorrectCount := 0;
        currentDeckProgress := None;
      }
    }

    /**
     * `markCorrect()` (`acertou`) and `markIncorrect()`: nothing without a card
     * under the cursor. Otherwise the answer is registered under the deck's and
     * the card's keys, completion is checked, the progress reloaded, and the
     * cursor advanced; the counters end equal to the ledger's tallies.
     */
    method MarkAnswer(acertou: bool, now: int)
      modifies this, ledger
      ensures AnsweredFrom(acertou, now)
    {
      if currentDeck.None? || CurrentCard(currentDeck, currentCardIndex).None? {
        return;
      }
      var deck := currentDeck.value;
      var card := CurrentCard(currentDeck, currentCardIndex).value;
      RecordAndReload(deck, card, acertou, now);
      MoveToNextCard(now);
    }

    /**
     * The state an answer leaves, against the state it started from: nothing
     * changed without a card under the cursor; otherwise the ledger, cursor,
     * shown record and counters after registering, checking, reloading and
     * advancing, with the ledger written back.
     */
    twostate predicate AnsweredFrom(acertou: bool, now: int)
      reads this, ledger
    {
      && ListsAndBannerUnchanged() && currentDeck == old(currentDeck) && isShowingMenu == old(isShowingMenu)
      && (CurrentCard(old(currentDeck), old(currentCardIndex)).None? ==> unchanged(this) && unchanged(ledger))
      && (CurrentCard(old(currentDeck), old(currentCardIndex)).Some? ==>
        var deck := old(currentDeck).value;
        var key := Decks.StorageId(deck);
        var n := |deck.cards|;
        var card := CurrentCard(old(currentDeck), old(currentCardIndex)).value;
        var m2 := CheckCompletionIn(RecordAnswerIn(old(ledger.allProgress), key, Cards.StorageId(card), acertou, now), key, n, now);
        var i1 := RestoredIndex(m2[key].ultimoCardIndex, n);
        var next := NextCard(m2, key, n, i1, now);
        && ledger.allProgress == next.0
        && currentCardIndex == next.1
        && currentDeckProgress == (if i1 < n - 1 then Some(m2[key]) else Some(CheckCompletionIn(m2, key, n, now)[key]))
        && correctCount == ledger.allProgress[key].totalAcertos
        && incorrectCount == ledger.allProgress[key].totalErros
        && ledger.Synced())
    }

    /** The part of `markCorrect()` and `markIncorrect()` before the cursor moves. */
    method RecordAndReload(deck: Deck, card: Card, acertou: bool, now: int)
      requires currentDeck == Some(deck)
      modifies this, ledger
      ensures ListsAndBannerUnchanged() && currentDeck == old(currentDeck) && isShowingMenu == old(isShowingMenu)
      ensures var key := Decks.StorageId(deck);
        var n := |deck.cards|;
        var m2 := CheckCompletionIn(RecordAnswerIn(old(ledger.allProgress), key, Cards.StorageId(card), acertou, now), key, n, now);
        && ledger.allProgress == m2
        && currentDeckProgress == Some(m2[key])
        && currentCardIndex == RestoredIndex(m2[key].ultimoCardIndex, n)
        && correctCount == m2[key].totalAcertos && incorrectCount == m2[key].totalErros
        && ledger.Synced()
    {
      if acertou {
        correctCount := correctCount + 1;
      } else {
        incorrectCount := incorrectCount + 1;
      }
      var key := Decks.StorageId(deck);
      ledger.RegistrarResposta(key, Cards.StorageId(card), acertou, now);
      ledger.VerificarConclusao(key, |deck.cards|, now);
      ghost var m2 := ledger.allProgress;
      assert key in m2 && Ensure(m2, key, now) == m2;
      LoadDeckProgress(now);
    }

    /** `markCorrect()`: an answer that was right. */
    method MarkCorrect(now: int)
      modifies this, ledger
      ensures AnsweredFrom(true, now)
      ensures ListsAndBannerUnchanged() && currentDeck == old(currentDeck)
      ensures CurrentCard(old(currentDeck), old(currentCardIndex)).None? ==> unchanged(this) && unchanged(ledger)
      ensures CurrentCard(old(currentDeck), old(currentCardIndex)).Some? ==>
        var key := Decks.StorageId(old(currentDeck).value);
        var card := CurrentCard(old(currentDeck), old(currentCardIndex)).value;
        && key in ledger.allProgress
        && Cards.StorageId(card) in ledger.allProgress[key].cardsRespondidas
        && ledger.allProgress[key].cardsRespondidas[Cards.StorageId(card)]
        && ledger.allProgress[key].totalAcertos == Lookup(old(ledger.allProgress), key, now).totalAcertos + 1
        && ledger.allProgress[key].totalErros == Lookup(old(ledger.allProgress), key, now).totalErros
        && correctCount == ledger.allProgress[key].totalAcertos
    {
      MarkAnswer(true, now);
    }

    /** `markIncorrect()`: an answer that was wrong. */
    method MarkIncorrect(now: int)
      modifies this, ledger
      ensures AnsweredFrom(false, now)
      ensures ListsAndBannerUnchanged() && currentDeck == old(currentDeck)
      ensures CurrentCard(old(currentDeck), old(currentCardIndex)).None? ==> unchanged(this) && unchanged(ledger)
      ensures CurrentCard(old(currentDeck), old(currentCardIndex)).Some? ==>
        var key := Decks.StorageId(old(currentDeck).value);
        var card := CurrentCard(old(currentDeck), old(currentCardIndex)).value;
        && key in ledger.allProgress
        && Cards.StorageId(card) in ledger.allProgress[key].cardsRespondidas
        && !ledger.allProgress[key].cardsRespondidas[Cards.StorageId(card)]
        && ledger.allProgress[key].totalErros == Lookup(old(ledger.allProgress), key, now).totalErros + 1
        && ledger.allProgress[key].totalAcertos == Lookup(old(ledger.allProgress), key, now).totalAcertos
        && incorrectCount == ledger.allProgress[key].totalErros
    {
      MarkAnswer(false, now);
    }

    /**
     * `moveToNextCard()`: nothing without a non-empty deck; otherwise the
     * cursor and ledger move as `NextCard` says, and the ledger ends holding
     * the cursor.
     */
    method MoveToNextCard(now: int)
      modifies this, ledger
      ensures ListsAndBannerUnchanged() && currentDeck == old(currentDeck) && isShowingMenu == old(isShowingMenu)
      ensures old(currentDeck).None? || old(currentDeck).value.cards == [] ==> unchanged(this) && unchanged(ledger)
      ensures old(currentDeck).Some? && old(currentDeck).value.cards != [] ==>
        var key := Decks.StorageId(currentDeck.value);
        var n := |currentDeck.value.cards|;
        var next := NextCard(old(ledger.allProgress), key, n, old(currentCardIndex), now);
        && ledger.allProgress == next.0
        && currentCardIndex == next.1
        && ledger.allProgress[key].ultimoCardIndex == currentCardIndex
        && ledger.Synced()
        && (old(currentCardIndex) < n - 1 ==>
              && correctCount == old(correctCount) && incorrectCount == old(incorrectCount)
              && currentDeckProgress == old(currentDeckProgress))
        && (old(currentCardIndex) >= n - 1 ==>
              && correctCount == ledger.allProgress[key].totalAcertos && incorrectCount == ledger.allProgress[key].totalErros
              && currentDeckProgress == Some(CheckCompletionIn(old(ledger.allProgress), key, n, now)[key]))
    {
      if currentDeck.None? || |currentDeck.value.cards| == 0 {
        return;
      }
      var deck := currentDeck.value;
      var n := |deck.cards|;
      ghost var key, m0, i0 := Decks.StorageId(deck), ledger.allProgress, currentCardIndex;
      if currentCardIndex < n - 1 {
        currentCardIndex := currentCardIndex + 1;
        assert NextCard(m0, key, n, i0, now) == (SaveLastCardIn(m0, key, currentCardIndex, now), currentCardIndex);
      } else {
        FinishPass(deck, now);
        assert NextCard(m0, key, n, i0, now) == (SaveLastCardIn(ledger.allProgress, key, currentCardIndex, now), currentCardIndex);
      }
      ledger.SalvarUltimoCardIndex(Decks.StorageId(deck), currentCardIndex, now);
    }

    /**
     * The last card's branch of `moveToNextCard()`: the cursor goes past the
     * end, completion is checked and the progress reloaded, which puts the
     * cursor back in range.
     */
    method FinishPass(deck: Deck, now: int)
      requires currentDeck == Some(deck)
      modifies this, ledger
      ensures ListsAndBannerUnchanged() && currentDeck == old(currentDeck) && isShowingMenu == old(isShowingMenu)
      ensures var key := Decks.StorageId(deck);
        var n := |deck.cards|;
        var m1 := CheckCompletionIn(old(ledger.allProgress), key, n, now);
        && ledger.allProgress == m1
        && currentDeckProgress == Some(m1[key])
        && currentCardIndex == RestoredIndex(m1[key].ultimoCardIndex, n)
        && correctCount == m1[key].totalAcertos && incorrectCount == m1[key].totalErros
    {
      var key := Decks.StorageId(deck);
      currentCardIndex := |deck.cards|;
      ledger.VerificarConclusao(key, |deck.cards|, now);
      ghost var m1 := ledger.allProgress;
      assert key in m1 && Ensure(m1, key, now) == m1;
      LoadDeckProgress(now);
    }

    /**
     * `resetDeck()`: nothing without a deck; otherwise the deck's record is
     * replaced with a fresh one, and the cursor and counters go to zero.
     */
    method ResetDeck(now: int)
      modifies this, ledger
      ensures ListsAndBannerUnchanged() && currentDeck == old(currentDeck) && isShowingMenu == old(isShowingMenu)
      ensures old(currentDeck).None? ==> unchanged(this) && unchanged(ledger)
      ensures old(currentDeck).Some? ==>
        var key := Decks.StorageId(currentDeck.value);
        && ledger.allProgress == ResetIn(old(ledger.allProgress), key, now)
        && ledger.allProgress[key] == NewDeckProgress(key, now)
        && currentDeckProgress == Some(NewDeckProgress(key, now))
        && currentCardIndex == 0 && correctCount == 0 && incorrectCount == 0
        && ledger.Synced()
    {
      if currentDeck.None? {
        return;
      }
      RestartCurrentDeck(now);
    }

    /** `resetDeck()` past its guard. */
    method RestartCurrentDeck(now: int)
      requires currentDeck.Some?
      modifies this, ledger
      ensures ListsAndBannerUnchanged() && currentDeck == old(currentDeck) && isShowingMenu == old(isShowingMenu)
      ensures var key := Decks.StorageId(currentDeck.value);
        && ledger.allProgress == ResetIn(old(ledger.allProgress), key, now)
        && ledger.allProgress[key] == NewDeckProgress(key, now)
        && currentDeckProgress == Some(NewDeckProgress(key, now))
        && currentCardIndex == 0 && correctCount == 0 && incorrectCount == 0
        && ledger.Synced()
    {
      var key := Decks.StorageId(currentDeck.value);
      RestartLedgerRecord(key, now);
      currentCardIndex, correctCount, incorrectCount := 0, 0, 0;
      ghost var m1 := ledger.allProgress;
      assert Ensure(m1, key, now) == m1 && Lookup(m1, key, now) == NewDeckProgress(key, now);
      LoadDeckProgress(now);
    }

    /**
     * The two ledger calls of `resetDeck()`: a fresh record, then cursor 0
     * saved on it, which leaves it fresh.
     */
    method RestartLedgerRecord(key: string, now: int)
      modifies ledger
      ensures ledger.allProgress == ResetIn(old(ledger.allProgress), key, now)
      ensures ledger.allProgress[key] == NewDeckProgress(key, now)
      ensures ledger.Synced()
    {
      ghost var m0 := ledger.allProgress;
      ledger.ResetarProgresso(key, now);
      ledger.SalvarUltimoCardIndex(key, 0, now);
      SaveZeroAfterReset(m0, key, now);
    }

    /** `updateRefreshStatus()`: message and flag from the time left before the next refresh. */
    method UpdateRefreshStatus(now: int)
      modifies this
      ensures (timeUntilNextUpdateMessage, canRefreshData) == RefreshStatus(TimeUntilNextUpdate(dataService.defaults, now))
      ensures canRefreshData <==> ShouldUpdate(dataService.defaults, now)
      ensures decks == old(decks) && allDecks == old(allDecks) && currentDeck == old(currentDeck)
      ensures currentCardIndex == old(currentCardIndex) && correctCount == old(correctCount)
      ensures incorrectCount == old(incorrectCount) && currentDeckProgress == old(currentDeckProgress)
      ensures isShowingMenu == old(isShowingMenu)
    {
      RefreshEnabledIffGateOpen(dataService.defaults, now);
      var status := RefreshStatus(TimeUntilNextUpdate(dataService.defaults, now));
      timeUntilNextUpdateMessage := status.0;
      canRefreshData := status.1;
    }
  }
}
