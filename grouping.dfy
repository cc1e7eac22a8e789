/**
 * Building decks from a flat card list: one deck per (language, topic) pair
 * and one "Todos" deck per language. The same nested loop appears twice in
 * the app, in DataService.createDecksFromCards
 * (DonkeyCards/Services/DataService.swift) and in
 * FirestoreService.getDecksFromFirestore
 * (DonkeyCards/Services/FirestoreService.swift).
 *
 * Both loops walk a Swift `Set`, whose order is unspecified; the model picks
 * the next element with `:|`, so every property below holds whatever order
 * the sets are walked in. `UUID()` is the caller's `newId`: the i-th deck built
 * gets `newId(i)`.
 */
module Grouping {
  import opened Decks
  import opened Cards

  /** `Set(cards.map { $0.idioma })`. */
  function Langs(cards: seq<Card>): set<string> {
    set c | c in cards :: c.idioma
  }

  /** The distinct (language, topic) pairs of the cards. */
  function Pairs(cards: seq<Card>): set<(string, string)> {
    set c | c in cards :: (c.idioma, c.tema)
  }

  /** `Set(idiomaCards.map { $0.tema })`. */
  function Topics(cards: seq<Card>): set<string> {
    set c | c in cards :: c.tema
  }

  /** `cards.filter { $0.idioma == idioma }`. */
  function LangCards(cards: seq<Card>, idioma: string): (r: seq<Card>)
    ensures forall c :: c in r <==> c in cards && c.idioma == idioma
    ensures |r| <= |cards|
  {
    if cards == [] then []
    else
      var rest := LangCards(cards[1..], idioma);
      assert forall c :: c in cards <==> c == cards[0] || c in cards[1..];
      if cards[0].idioma == idioma then [cards[0]] + rest else rest
  }

  /** `idiomaCards.filter { $0.tema == tema }`. */
  function TopicCards(cards: seq<Card>, tema: string): (r: seq<Card>)
    ensures forall c :: c in r <==> c in cards && c.tema == tema
    ensures |r| <= |cards|
  {
    if cards == [] then []
    else
      var rest := TopicCards(cards[1..], tema);
      assert forall c :: c in cards <==> c == cards[0] || c in cards[1..];
      if cards[0].tema == tema then [cards[0]] + rest else rest
  }

  /** Filtering keeps the input order: it distributes over concatenation. */
  lemma {:induction false} LangCardsAppend(a: seq<Card>, b: seq<Card>, idioma: string)
    ensures LangCards(a + b, idioma) == LangCards(a, idioma) + LangCards(b, idioma)
    decreases |a|
  {
    if a != [] {
      assert (a + b)[0] == a[0] && (a + b)[1..] == a[1..] + b;
      LangCardsAppend(a[1..], b, idioma);
    } else {
      assert a + b == b;
    }
  }

  lemma {:induction false} TopicCardsAppend(a: seq<Card>, b: seq<Card>, tema: string)
    ensures TopicCards(a + b, tema) == TopicCards(a, tema) + TopicCards(b, tema)
    decreases |a|
  {
    if a != [] {
      assert (a + b)[0] == a[0] && (a + b)[1..] == a[1..] + b;
      TopicCardsAppend(a[1..], b, tema);
    } else {
      assert a + b == b;
    }
  }

  /** `"\(tema) (\(idioma))"`; the "Todos" deck's name is this with topic "Todos". */
  function DeckName(tema: string, idioma: string): string {
    tema + " (" + idioma + ")"
  }

  const AllTopic: string := "Todos"

  /** Which deck a position of the output holds. */
  datatype Slot = TopicSlot(lang: string, topic: string) | AllSlot(lang: string)

  /** The slots the grouping must produce for `cards`. */
  predicate ExpectedSlot(cards: seq<Card>, s: Slot) {
    match s
    case TopicSlot(l, t) => (l, t) in Pairs(cards)
    case AllSlot(l) => l in Langs(cards)
  }

  /** The deck built for a slot. */
  function DeckFor(cards: seq<Card>, s: Slot, id: Uuid): Deck {
    match s
    case TopicSlot(l, t) => NewDeck(id, DeckName(t, l), l, t, TopicCards(LangCards(cards, l), t))
    case AllSlot(l) => NewDeck(id, DeckName(AllTopic, l), l, AllTopic, LangCards(cards, l))
  }

  /** A topic deck holds exactly the cards of its pair, an "all" deck those of its language. */
  lemma DeckForCards(cards: seq<Card>, s: Slot, id: Uuid, c: Card)
    ensures var d := DeckFor(cards, s, id);
      && d.idioma == s.lang
      && (s.TopicSlot? ==> d.tema == s.topic && d.nome == DeckName(s.topic, s.lang))
      && (s.AllSlot? ==> d.tema == AllTopic && d.nome == DeckName(AllTopic, s.lang))
      && (c in d.cards <==> c in cards && c.idioma == s.lang && (s.TopicSlot? ==> c.tema == s.topic))
  {
  }

  predicate DistinctSlots(slots: seq<Slot>) {
    forall i, j :: 0 <= i < j < |slots| ==> slots[i] != slots[j]
  }

  /**
   * The slots of one language form one contiguous run, and its "all" slot is
   * the last of that run.
   */
  predicate LanguageBlocks(slots: seq<Slot>) {
    && (forall i, j, k :: 0 <= i < j < k < |slots| && slots[i].lang == slots[k].lang ==> slots[j].lang == slots[i].lang)
    && (forall i, j :: 0 <= i < j < |slots| && slots[i].AllSlot? ==> slots[j].lang != slots[i].lang)
  }

  /** What the grouping loop delivers: decks and the slots they fill. */
  ghost predicate GroupedAs(cards: seq<Card>, newId: nat -> Uuid, decks: seq<Deck>, slots: seq<Slot>) {
    && |decks| == |slots|
    && (forall i :: 0 <= i < |slots| ==> decks[i] == DeckFor(cards, slots[i], newId(i)))
    && DistinctSlots(slots)
    && (forall s :: s in slots <==> ExpectedSlot(cards, s))
    && LanguageBlocks(slots)
  }

  /**
   * Appending a run of slots of language `l`, all topic slots but perhaps the
   * last, after slots of other languages keeps the blocks.
   */
  lemma AppendRunKeepsBlocks(slots: seq<Slot>, run: seq<Slot>, l: string)
    requires LanguageBlocks(slots)
    requires forall i :: 0 <= i < |slots| ==> slots[i].lang != l
    requires forall i :: 0 <= i < |run| ==> run[i].lang == l
    requires forall i :: 0 <= i < |run| - 1 ==> run[i].TopicSlot?
    ensures LanguageBlocks(slots + run)
  {
    var t := slots + run;
    var n := |slots|;
    forall i, j, k | 0 <= i < j < k < |t| && t[i].lang == t[k].lang ensures t[j].lang == t[i].lang {
      if k < n {
        assert t[i] == slots[i] && t[j] == slots[j] && t[k] == slots[k];
      } else if i >= n {
        assert t[i] == run[i - n] && t[j] == run[j - n];
      }
    }
    forall i, j | 0 <= i < j < |t| && t[i].AllSlot? ensures t[j].lang != t[i].lang {
      if j < n {
        assert t[i] == slots[i] && t[j] == slots[j];
      } else if i < n {
        assert t[i] == slots[i] && t[j] == run[j - n];
      }
    }
  }

  lemma TopicsOfLanguage(cards: seq<Card>, l: string, t: string)
    ensures t in Topics(LangCards(cards, l)) <==> (l, t) in Pairs(cards)
  {
    if (l, t) in Pairs(cards) {
      var c :| c in cards && (c.idioma, c.tema) == (l, t);
      assert c in LangCards(cards, l);
    }
  }

  /** The decks built so far fill distinct slots, in language blocks. */
  ghost predicate Partial(cards: seq<Card>, newId: nat -> Uuid, decks: seq<Deck>, slots: seq<Slot>) {
    && |decks| == |slots|
    && (forall i :: 0 <= i < |slots| ==> decks[i] == DeckFor(cards, slots[i], newId(i)))
    && DistinctSlots(slots)
    && LanguageBlocks(slots)
  }

  /** The topic slots of `idioma`, one per topic of `order`, in that order. */
  function TopicSlotsOf(idioma: string, order: seq<string>): (r: seq<Slot>)
    ensures |r| == |order|
    ensures forall i :: 0 <= i < |order| ==> r[i] == TopicSlot(idioma, order[i])
  {
    seq(|order|, i requires 0 <= i < |order| => TopicSlot(idioma, order[i]))
  }

  predicate NoRepeats(order: seq<string>) {
    forall i, j :: 0 <= i < j < |order| ==> order[i] != order[j]
  }

  function Elems(order: seq<string>): set<string> {
    set t | t in order
  }

  /**
   * `decks` is `decks0` followed by one deck per topic of `order`, in that
   * order, the i-th new deck getting id `newId(|decks0| + i)`.
   */
  ghost predicate TopicDecksAfter(cards: seq<Card>, newId: nat -> Uuid, idioma: string,
                                  decks0: seq<Deck>, order: seq<string>, decks: seq<Deck>) {
    && |decks| == |decks0| + |order|
    && (forall i :: 0 <= i < |decks0| ==> decks[i] == decks0[i])
    && (forall i :: 0 <= i < |order| ==>
          decks[|decks0| + i] == DeckFor(cards, TopicSlot(idioma, order[i]), newId(|decks0| + i)))
  }

  /** One more topic deck extends the run. */
  lemma TopicDecksSnoc(cards: seq<Card>, newId: nat -> Uuid, idioma: string,
                       decks0: seq<Deck>, order: seq<string>, decks: seq<Deck>, tema: string)
    requires TopicDecksAfter(cards, newId, idioma, decks0, order, decks)
    ensures TopicDecksAfter(cards, newId, idioma, decks0, order + [tema],
                            decks + [DeckFor(cards, TopicSlot(idioma, tema), newId(|decks|))])
  {
    var o := order + [tema];
    var d := decks + [DeckFor(cards, TopicSlot(idioma, tema), newId(|decks|))];
    var n := |decks0|;
    forall i | 0 <= i < |o| ensures d[n + i] == DeckFor(cards, TopicSlot(idioma, o[i]), newId(n + i)) {
      if i < |order| {
        assert d[n + i] == decks[n + i] && o[i] == order[i];
      }
    }
  }

  /** The topic deck as the inner loop builds it. */
  lemma TopicDeckIsDeckFor(cards: seq<Card>, idioma: string, tema: string, id: Uuid)
    ensures NewDeck(id, DeckName(tema, idioma), idioma, tema, TopicCards(LangCards(cards, idioma), tema))
      == DeckFor(cards, TopicSlot(idioma, tema), id)
  {
  }

  /** Moving one topic from the unvisited set to the end of the walk keeps the split of `all`. */
  lemma TopicOrderSnoc(all: set<string>, temas: set<string>, order: seq<string>, tema: string)
    requires temas + Elems(order) == all && temas !! Elems(order) && NoRepeats(order)
    requires tema in temas
    ensures (temas - {tema}) + Elems(order + [tema]) == all && (temas - {tema}) !! Elems(order + [tema])
    ensures NoRepeats(order + [tema])
  {
    assert tema !in order;
    assert Elems(order + [tema]) == Elems(order) + {tema};
  }

  /** The "Todos" deck as the outer loop builds it. */
  lemma AllDeckIsDeckFor(cards: seq<Card>, idioma: string, id: Uuid)
    ensures NewDeck(id, DeckName(AllTopic, idioma), idioma, AllTopic, LangCards(cards, idioma))
      == DeckFor(cards, AllSlot(idioma), id)
  {
  }

  /** Moving one language from the unvisited set to the done set keeps the split of `all`. */
  lemma MoveLanguage(all: set<string>, idiomas: set<string>, done: set<string>, idioma: string)
    requires idiomas + done == all && idiomas !! done && idioma in idiomas
    ensures (idiomas - {idioma}) + (done + {idioma}) == all && (idiomas - {idioma}) !! (done + {idioma})
    ensures |idiomas - {idioma}| < |idiomas|
  {
  }

  /**
   * The inner loop: one deck per topic of `idioma`, appended after `decks0`.
   * `order` is the order the topic set was walked in.
   */
  method AddTopicDecks(cards: seq<Card>, newId: nat -> Uuid, idioma: string, decks0: seq<Deck>)
    returns (decks: seq<Deck>, ghost order: seq<string>)
    ensures Elems(order) == Topics(LangCards(cards, idioma))
    ensures NoRepeats(order)
    ensures TopicDecksAfter(cards, newId, idioma, decks0, order, decks)
  {
    decks := decks0;
    order := [];
    var idiomaCards := LangCards(cards, idioma);
    var temas := Topics(idiomaCards);
    while temas != {}
      invariant temas + Elems(order) == Topics(idiomaCards) && temas !! Elems(order)
      invariant NoRepeats(order)
      invariant TopicDecksAfter(cards, newId, idioma, decks0, order, decks)
      decreases |temas|
    {
      var tema :| tema in temas;
      var deck := NewDeck(newId(|decks|), DeckName(tema, idioma), idioma, tema, TopicCards(idiomaCards, tema));
      TopicDeckIsDeckFor(cards, idioma, tema, newId(|decks|));
      TopicDecksSnoc(cards, newId, idioma, decks0, order, decks, tema);
      TopicOrderSnoc(Topics(idiomaCards), temas, order, tema);
      decks := decks + [deck];
      order := order + [tema];
      temas := temas - {tema};
    }
  }

  /** Where the slots of a language's run sit after those of the earlier languages. */
  lemma RunIndex(slots0: seq<Slot>, idioma: string, order: seq<string>)
    ensures var t := slots0 + (TopicSlotsOf(idioma, order) + [AllSlot(idioma)]);
      && |t| == |slots0| + |order| + 1
      && (forall i :: 0 <= i < |slots0| ==> t[i] == slots0[i])
      && (forall i :: |slots0| <= i < |t| - 1 ==> t[i] == TopicSlot(idioma, order[i - |slots0|]))
      && (forall i :: |slots0| <= i < |t| ==> t[i].lang == idioma)
      && t[|t| - 1] == AllSlot(idioma)
  {
    var run := TopicSlotsOf(idioma, order) + [AllSlot(idioma)];
    var t := slots0 + run;
    forall i | |slots0| <= i < |t| - 1 ensures t[i] == TopicSlot(idioma, order[i - |slots0|]) {
      assert t[i] == run[i - |slots0|];
    }
    forall i | |slots0| <= i < |t| ensures t[i].lang == idioma {
      assert t[i] == run[i - |slots0|];
    }
  }

  /** The slots after a language's run: those of the earlier languages and the expected ones of `idioma`. */
  lemma RunMembers(cards: seq<Card>, idioma: string, done: set<string>, slots0: seq<Slot>, order: seq<string>)
    requires idioma in Langs(cards) && idioma !in done
    requires forall s :: s in slots0 <==> ExpectedSlot(cards, s) && s.lang in done
    requires Elems(order) == Topics(LangCards(cards, idioma))
    ensures forall s :: s in slots0 + (TopicSlotsOf(idioma, order) + [AllSlot(idioma)]) <==>
      ExpectedSlot(cards, s) && s.lang in done + {idioma}
  {
    var topics := TopicSlotsOf(idioma, order);
    forall s ensures s in slots0 + (topics + [AllSlot(idioma)]) <==> ExpectedSlot(cards, s) && s.lang in done + {idioma} {
      assert s in slots0 + (topics + [AllSlot(idioma)]) <==> s in slots0 || s in topics || s == AllSlot(idioma);
      if s.TopicSlot? && s.lang == idioma {
        TopicsOfLanguage(cards, idioma, s.topic);
        if s.topic in order {
          var k :| 0 <= k < |order| && order[k] == s.topic;
          assert topics[k] == s;
        }
        assert s !in slots0;
      } else if s == AllSlot(idioma) {
        assert s !in slots0;
      } else {
        assert s !in topics;
      }
    }
  }

  /** The decks after a language's run are those of its slots. */
  lemma RunDecks(cards: seq<Card>, newId: nat -> Uuid, idioma: string,
                 decks0: seq<Deck>, slots0: seq<Slot>, order: seq<string>, decks: seq<Deck>)
    requires |decks0| == |slots0|
    requires forall i :: 0 <= i < |slots0| ==> decks0[i] == DeckFor(cards, slots0[i], newId(i))
    requires TopicDecksAfter(cards, newId, idioma, decks0, order, decks)
    ensures var t := slots0 + (TopicSlotsOf(idioma, order) + [AllSlot(idioma)]);
      var d := decks + [DeckFor(cards, AllSlot(idioma), newId(|decks|))];
      |d| == |t| && forall i :: 0 <= i < |t| ==> d[i] == DeckFor(cards, t[i], newId(i))
  {
    var t := slots0 + (TopicSlotsOf(idioma, order) + [AllSlot(idioma)]);
    var d := decks + [DeckFor(cards, AllSlot(idioma), newId(|decks|))];
    var n := |slots0|;
    RunIndex(slots0, idioma, order);
    forall i | 0 <= i < |t| ensures d[i] == DeckFor(cards, t[i], newId(i)) {
      if i < n {
        assert d[i] == decks[i] == decks0[i];
        assert t[i] == slots0[i];
      } else if i < |t| - 1 {
        var k := i - n;
        assert d[i] == decks[n + k] == DeckFor(cards, TopicSlot(idioma, order[k]), newId(n + k));
        assert t[i] == TopicSlot(idioma, order[k]);
      } else {
        assert d[i] == DeckFor(cards, AllSlot(idioma), newId(|decks|));
        assert t[i] == AllSlot(idioma) && i == |decks|;
      }
    }
  }

  /** A language's run repeats no slot and shares none with the earlier languages. */
  lemma RunDistinct(slots0: seq<Slot>, idioma: string, order: seq<string>)
    requires DistinctSlots(slots0) && NoRepeats(order)
    requires forall i :: 0 <= i < |slots0| ==> slots0[i].lang != idioma
    ensures DistinctSlots(slots0 + (TopicSlotsOf(idioma, order) + [AllSlot(idioma)]))
  {
    var t := slots0 + (TopicSlotsOf(idioma, order) + [AllSlot(idioma)]);
    var n := |slots0|;
    RunIndex(slots0, idioma, order);
    forall i, j | 0 <= i < j < |t| ensures t[i] != t[j] {
      if j < n {
        assert t[i] == slots0[i] && t[j] == slots0[j];
      } else if i < n {
        assert t[i] == slots0[i] && t[j].lang == idioma;
      } else if j < |t| - 1 {
        assert order[i - n] != order[j - n];
      } else {
        assert t[i].TopicSlot? && t[j].AllSlot?;
      }
    }
  }

  /**
   * Closing a language: after the decks of the languages in `done`, the topic
   * decks of `idioma` and then its "all" deck keep `Partial`, and the slots
   * are then exactly the expected ones of `done` and `idioma`.
   */
  lemma LanguageDone(cards: seq<Card>, newId: nat -> Uuid, idioma: string, done: set<string>,
                     decks0: seq<Deck>, slots0: seq<Slot>, order: seq<string>, decks: seq<Deck>)
    requires Partial(cards, newId, decks0, slots0)
    requires idioma in Langs(cards) && idioma !in done
    requires forall s :: s in slots0 <==> ExpectedSlot(cards, s) && s.lang in done
    requires Elems(order) == Topics(LangCards(cards, idioma)) && NoRepeats(order)
    requires TopicDecksAfter(cards, newId, idioma, decks0, order, decks)
    ensures var run := TopicSlotsOf(idioma, order) + [AllSlot(idioma)];
      && Partial(cards, newId, decks + [DeckFor(cards, AllSlot(idioma), newId(|decks|))], slots0 + run)
      && forall s :: s in slots0 + run <==> ExpectedSlot(cards, s) && s.lang in done + {idioma}
  {
    var run := TopicSlotsOf(idioma, order) + [AllSlot(idioma)];
    forall i | 0 <= i < |slots0| ensures slots0[i].lang != idioma {
      assert slots0[i] in slots0;
    }
    AppendRunKeepsBlocks(slots0, run, idioma);
    RunDecks(cards, newId, idioma, decks0, slots0, order, decks);
    RunDistinct(slots0, idioma, order);
    RunMembers(cards, idioma, done, slots0, order);
  }

  /**
   * The loop of `createDecksFromCards(_:)`: for each language, a deck per
   * topic and then the language's "Todos" deck. `slots` names the deck at each
   * position.
   */
  method GroupIntoDecks(cards: seq<Card>, newId: nat -> Uuid) returns (decks: seq<Deck>, ghost slots: seq<Slot>)
    ensures GroupedAs(cards, newId, decks, slots)
  {
    var idiomas := Langs(cards);
    decks := [];
    slots := [];
    ghost var done: set<string> := {};
    while idiomas != {}
      invariant idiomas + done == Langs(cards) && idiomas !! done
      invariant Partial(cards, newId, decks, slots)
      invariant forall s :: s in slots <==> ExpectedSlot(cards, s) && s.lang in done
      decreases |idiomas|
    {
      var idioma :| idioma in idiomas;
      ghost var decks0, slots0 := decks, slots;
      ghost var order;
      decks, order := AddTopicDecks(cards, newId, idioma, decks);
      var allDeck := NewDeck(newId(|decks|), DeckName(AllTopic, idioma), idioma, AllTopic, LangCards(cards, idioma));
      AllDeckIsDeckFor(cards, idioma, newId(|decks|));
      LanguageDone(cards, newId, idioma, done, decks0, slots0, order, decks);
      MoveLanguage(Langs(cards), idiomas, done, idioma);
      decks := decks + [allDeck];
      slots := slots0 + (TopicSlotsOf(idioma, order) + [AllSlot(idioma)]);
      idiomas := idiomas - {idioma};
      done := done + {idioma};
    }
    assert forall s :: ExpectedSlot(cards, s) ==> s.lang in done by {
      forall s | ExpectedSlot(cards, s) ensures s.lang in Langs(cards) {
        if s.TopicSlot? {
          var c :| c in cards && (c.idioma, c.tema) == (s.lang, s.topic);
        }
      }
    }
  }

  // Counting the decks.

  function TopicSlots(pairs: set<(string, string)>): set<Slot> {
    set p | p in pairs :: TopicSlot(p.0, p.1)
  }

  function AllSlots(langs: set<string>): set<Slot> {
    set l | l in langs :: AllSlot(l)
  }

  lemma {:induction false} TopicSlotsSize(pairs: set<(string, string)>)
    ensures |TopicSlots(pairs)| == |pairs|
    decreases |pairs|
  {
    if pairs != {} {
      var p :| p in pairs;
      var rest := pairs - {p};
      TopicSlotsSize(rest);
      assert TopicSlots(pairs) == TopicSlots(rest) + {TopicSlot(p.0, p.1)};
      assert TopicSlot(p.0, p.1) !in TopicSlots(rest);
    }
  }

  lemma {:induction false} AllSlotsSize(langs: set<string>)
    ensures |AllSlots(langs)| == |langs|
    decreases |langs|
  {
    if langs != {} {
      var l :| l in langs;
      var rest := langs - {l};
      AllSlotsSize(rest);
      assert AllSlots(langs) == AllSlots(rest) + {AllSlot(l)};
      assert AllSlot(l) !in AllSlots(rest);
    }
  }

  function SlotSet(slots: seq<Slot>): set<Slot> {
    set s | s in slots
  }

  lemma {:induction false} DistinctSlotsSize(slots: seq<Slot>)
    requires DistinctSlots(slots)
    ensures |SlotSet(slots)| == |slots|
    decreases |slots|
  {
    if slots != [] {
      var n := |slots| - 1;
      var init := slots[..n];
      assert DistinctSlots(init) by {
        forall i, j | 0 <= i < j < n ensures init[i] != init[j] {
          assert init[i] == slots[i] && init[j] == slots[j];
        }
      }
      DistinctSlotsSize(init);
      assert slots == init + [slots[n]];
      assert SlotSet(slots) == SlotSet(init) + {slots[n]};
      assert slots[n] !in SlotSet(init);
    }
  }

  /**
   * There are exactly as many decks as distinct languages plus distinct
   * (language, topic) pairs.
   */
  lemma DeckCount(cards: seq<Card>, newId: nat -> Uuid, decks: seq<Deck>, slots: seq<Slot>)
    requires GroupedAs(cards, newId, decks, slots)
    ensures |decks| == |Langs(cards)| + |Pairs(cards)|
  {
    DistinctSlotsSize(slots);
    TopicSlotsSize(Pairs(cards));
    AllSlotsSize(Langs(cards));
    ExpectedSlotSet(cards, slots);
  }

  /** The slots that must be filled: one per (language, topic) pair and one per language. */
  lemma ExpectedSlotSet(cards: seq<Card>, slots: seq<Slot>)
    requires forall s :: s in slots <==> ExpectedSlot(cards, s)
    ensures SlotSet(slots) == TopicSlots(Pairs(cards)) + AllSlots(Langs(cards))
    ensures TopicSlots(Pairs(cards)) !! AllSlots(Langs(cards))
  {
    forall s ensures s in SlotSet(slots) <==> s in TopicSlots(Pairs(cards)) + AllSlots(Langs(cards)) {
      if s.TopicSlot? {
        assert s == TopicSlot((s.lang, s.topic).0, (s.lang, s.topic).1);
      }
    }
  }

  /**
   * Every input card is in exactly one topic deck, the one of its pair, and in
   * its language's "Todos" deck; a card is in no deck of another language.
   */
  lemma CardPlacement(cards: seq<Card>, newId: nat -> Uuid, decks: seq<Deck>, slots: seq<Slot>, c: Card)
    requires GroupedAs(cards, newId, decks, slots)
    requires c in cards
    ensures exists i :: 0 <= i < |slots| && slots[i] == TopicSlot(c.idioma, c.tema) && c in decks[i].cards
    ensures exists i :: 0 <= i < |slots| && slots[i] == AllSlot(c.idioma) && c in decks[i].cards
    ensures forall i :: 0 <= i < |slots| && slots[i].TopicSlot? && c in decks[i].cards ==>
      slots[i] == TopicSlot(c.idioma, c.tema)
    ensures forall i, j ::
      (0 <= i < |slots| && 0 <= j < |slots| && slots[i].TopicSlot? && slots[j].TopicSlot? &&
       c in decks[i].cards && c in decks[j].cards) ==> i == j
    ensures forall i :: 0 <= i < |slots| && c in decks[i].cards ==> decks[i].idioma == c.idioma
  {
    assert ExpectedSlot(cards, TopicSlot(c.idioma, c.tema));
    assert ExpectedSlot(cards, AllSlot(c.idioma));
    var i :| 0 <= i < |slots| && slots[i] == TopicSlot(c.idioma, c.tema);
    var j :| 0 <= j < |slots| && slots[j] == AllSlot(c.idioma);
    DeckForCards(cards, slots[i], newId(i), c);
    DeckForCards(cards, slots[j], newId(j), c);
    forall k | 0 <= k < |slots|
      ensures c in decks[k].cards ==> (decks[k].idioma == c.idioma &&
        (slots[k].TopicSlot? ==> slots[k] == TopicSlot(c.idioma, c.tema)))
    {
      DeckForCards(cards, slots[k], newId(k), c);
    }
  }

  /** A deck holds only input cards, and the right ones: its language's, and its topic's. */
  lemma DeckContents(cards: seq<Card>, newId: nat -> Uuid, decks: seq<Deck>, slots: seq<Slot>, i: nat, c: Card)
    requires GroupedAs(cards, newId, decks, slots)
    requires i < |decks|
    ensures c in decks[i].cards <==>
      c in cards && c.idioma == decks[i].idioma && (slots[i].TopicSlot? ==> c.tema == decks[i].tema)
  {
    DeckForCards(cards, slots[i], newId(i), c);
  }

  /**
   * A card whose topic is literally "Todos" yields a topic deck with the same
   * progress key as its language's "Todos" deck: the two decks share one
   * ledger record.
   */
  lemma TodosTopicSharesKey(cards: seq<Card>, newId: nat -> Uuid, decks: seq<Deck>, slots: seq<Slot>, c: Card)
    requires GroupedAs(cards, newId, decks, slots)
    requires c in cards && c.tema == AllTopic
    ensures exists i, j ::
      (0 <= i < |decks| && 0 <= j < |decks| && i != j &&
       Decks.StorageId(decks[i]) == Decks.StorageId(decks[j]))
  {
    assert ExpectedSlot(cards, TopicSlot(c.idioma, AllTopic));
    assert ExpectedSlot(cards, AllSlot(c.idioma));
    var i :| 0 <= i < |slots| && slots[i] == TopicSlot(c.idioma, AllTopic);
    var j :| 0 <= j < |slots| && slots[j] == AllSlot(c.idioma);
    assert decks[i] == DeckFor(cards, slots[i], newId(i));
    assert decks[j] == DeckFor(cards, slots[j], newId(j));
  }
}
