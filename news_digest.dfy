/** The state of the digest component: which section is active, which story
    cards are expanded, and whether the viewport counts as desktop. */
module NewsDigestUi {
  import opened Wrappers
  import JsRecord
  import opened NewsFetch

  /** The narrowest viewport, in CSS pixels, that counts as desktop. */
  const DesktopMinWidth: int := 1024

  /** `window.innerWidth >= 1024`. */
  function IsDesktop(width: int): (desktop: bool)
    ensures desktop <==> width >= DesktopMinWidth
  {
    width >= DesktopMinWidth
  }

  // ---------------------------------------------------------------------------
  // The expansion map

  type Cards = map<string, bool>

  /** `expandedCards[id]` read as a condition: a missing entry is `undefined`,
      which is false. After a reset no article id is missing; an id naming an
      `Object.prototype` member would read the inherited value instead. */
  function Expanded(cards: Cards, id: string): (b: bool)
    ensures id !in cards ==> !b
    ensures id in cards ==> (b <==> cards[id])
  {
    id in cards && cards[id]
  }

  /** The article ids of all sections, section by section (the `flatMap`). */
  function ArticleIds(sections: seq<seq<Story>>): (ids: seq<string>)
    ensures forall id :: id in ids <==>
              exists j, i :: 0 <= j < |sections| && 0 <= i < |sections[j]| && sections[j][i].id == id
  {
    if sections == [] then
      []
    else
      var init := sections[..|sections| - 1];
      var last := sections[|sections| - 1];
      var lastIds := seq(|last|, i requires 0 <= i < |last| => last[i].id);
      var ids := ArticleIds(init) + lastIds;
      assert forall j, i :: 0 <= j < |init| && 0 <= i < |init[j]| ==> init[j][i] == sections[j][i];
      forall id | exists j, i :: 0 <= j < |sections| && 0 <= i < |sections[j]| && sections[j][i].id == id
        ensures id in ids
      {
        var j, i :| 0 <= j < |sections| && 0 <= i < |sections[j]| && sections[j][i].id == id;
        if j == |sections| - 1 {
          assert lastIds[i] == id;
        } else {
          assert init[j][i].id == id;
        }
      }
      ids
  }

  /** `Object.fromEntries(ids.map(id => [id, value]))`. */
  function FromEntries(ids: seq<string>, value: bool): (cards: Cards)
    ensures forall id :: id in cards <==> id in ids
    ensures forall id :: id in cards ==> cards[id] == value
  {
    if ids == [] then map[] else FromEntries(ids[..|ids| - 1], value)[ids[|ids| - 1] := value]
  }

  /** The expansion map the component resets to: every article id of every
      section mapped to the viewport flag. */
  function InitialCards(data: Digest, desktop: bool): (cards: Cards)
    requires data.Valid()
    ensures forall id :: Expanded(cards, id) <==> desktop && id in cards
  {
    FromEntries(ArticleIds(JsRecord.Values(data)), desktop)
  }

  /** After a reset, the keys are exactly the article ids of the digest, and
      each maps to the viewport flag. */
  lemma InitialCardsSpec(data: Digest, desktop: bool, id: string)
    requires data.Valid()
    ensures id in InitialCards(data, desktop) <==>
            exists key, i :: key in data.entries && 0 <= i < |data.entries[key]| && data.entries[key][i].id == id
    ensures id in InitialCards(data, desktop) ==> InitialCards(data, desktop)[id] == desktop
  {
    var vs: seq<seq<Story>> := JsRecord.Values(data);
    if exists key, i :: key in data.entries && 0 <= i < |data.entries[key]| && data.entries[key][i].id == id {
      var key, i :| key in data.entries && 0 <= i < |data.entries[key]| && data.entries[key][i].id == id;
      var j :| 0 <= j < |data.keys| && data.keys[j] == key;
      assert vs[j][i].id == id;
    }
    if id in InitialCards(data, desktop) {
      var j, i :| 0 <= j < |vs| && 0 <= i < |vs[j]| && vs[j][i].id == id;
      assert data.keys[j] in data.entries;
    }
  }

  /** The functional update inside `toggleCard`: nothing on desktop, otherwise
      `{...prev, [id]: !prev[id]}`. */
  function Toggle(cards: Cards, id: string, desktop: bool): (cards': Cards)
    ensures desktop ==> cards' == cards
    ensures !desktop ==> id in cards' && cards'[id] == !Expanded(cards, id)
    ensures forall other :: other != id ==> (other in cards' <==> other in cards)
    ensures forall other :: other != id && other in cards ==> cards'[other] == cards[other]
  {
    if desktop then cards else cards[id := !Expanded(cards, id)]
  }

  /** On a narrow viewport, toggling the same card twice restores whether it is
      expanded, and leaves every other card as it was. */
  lemma ToggleTwice(cards: Cards, id: string)
    ensures Expanded(Toggle(Toggle(cards, id, false), id, false), id) == Expanded(cards, id)
    ensures forall other :: other != id ==> Expanded(Toggle(Toggle(cards, id, false), id, false), other) == Expanded(cards, other)
  {
  }

  /** `(expandedCards[article.id] || isDesktop)`: whether a card shows its content. */
  function CardContentShown(cards: Cards, id: string, desktop: bool): (shown: bool)
    ensures desktop ==> shown
    ensures !desktop ==> (shown <==> Expanded(cards, id))
  {
    Expanded(cards, id) || desktop
  }

  /** `article.commentsSummary && ...`: the discussion block appears only for a
      non-empty discussion summary. */
  function DiscussionShown(story: Story): (shown: bool)
    ensures shown <==> story.commentsSummary.Some? && story.commentsSummary.value != ""
  {
    match story.commentsSummary
    case None => false
    case Some(text) => text != ""
  }

  /** The discussion block of a card (:163) is rendered inside the card's
      content (:153): it is visible only when the content is shown and the
      discussion summary is non-empty. */
  function DiscussionVisible(cards: Cards, story: Story, desktop: bool): (visible: bool)
    ensures visible ==> DiscussionShown(story)
    ensures desktop ==> (visible <==> DiscussionShown(story))
    ensures !desktop && !Expanded(cards, story.id) ==> !visible
    ensures !desktop && Expanded(cards, story.id) ==> (visible <==> DiscussionShown(story))
  {
    CardContentShown(cards, story.id, desktop) && DiscussionShown(story)
  }

  // ---------------------------------------------------------------------------
  // The component

  class NewsDigest {
    var newsData: Digest
    var activeSource: Option<string>
    var expandedCards: Cards
    var isDesktop: bool

    /** The digest is well formed, and on desktop no card has been toggled away
        from its reset value. */
    ghost predicate Valid()
      reads this
    {
      && newsData.Valid()
      && (isDesktop ==> expandedCards == InitialCards(newsData, true))
    }

    /** Mounting: the active section is the first key of the digest, the
        viewport is measured, and the cards are reset for it. */
    constructor (data: Digest, width: int)
      requires data.Valid()
      ensures Valid()
      ensures newsData == data
      ensures activeSource == JsRecord.FirstKey(data)
      ensures isDesktop == IsDesktop(width)
      ensures expandedCards == InitialCards(data, isDesktop)
    {
      newsData := data;
      activeSource := JsRecord.FirstKey(data);
      expandedCards := InitialCards(data, false);
      isDesktop := false;
      new;
      Resize(width);
    }

    /** The resize handler. The cards are reset only when the viewport flag
        changes, since the reset runs when its dependencies change. */
    method Resize(width: int)
      requires Valid()
      modifies this
      ensures Valid()
      ensures isDesktop == IsDesktop(width)
      ensures isDesktop != old(isDesktop) ==> expandedCards == InitialCards(newsData, isDesktop)
      ensures isDesktop == old(isDesktop) ==> expandedCards == old(expandedCards)
      ensures newsData == old(newsData) && activeSource == old(activeSource)
      ensures isDesktop ==> forall id :: ShowsContent(id)
      ensures !isDesktop && old(isDesktop) ==> forall id :: !ShowsContent(id)
    {
      var desktop := IsDesktop(width);
      if desktop != isDesktop {
        isDesktop := desktop;
        expandedCards := InitialCards(newsData, isDesktop);
      }
    }

    /** A new digest: the cards are reset for it; the active section is kept. */
    method ReceiveData(data: Digest)
      requires Valid() && data.Valid()
      modifies this
      ensures Valid()
      ensures newsData == data
      ensures expandedCards == InitialCards(data, isDesktop)
      ensures isDesktop == old(isDesktop) && activeSource == old(activeSource)
      ensures forall id :: ShowsContent(id) <==> isDesktop
    {
      newsData := data;
      expandedCards := InitialCards(newsData, isDesktop);
    }

    /** `toggleCard(id)`. */
    method ToggleCard(id: string)
      requires Valid()
      modifies this`expandedCards
      ensures Valid()
      ensures expandedCards == Toggle(old(expandedCards), id, isDesktop)
      ensures isDesktop ==> expandedCards == old(expandedCards)
      ensures !isDesktop ==> Expanded(expandedCards, id) == !Expanded(old(expandedCards), id)
      ensures forall other :: other != id ==> Expanded(expandedCards, other) == Expanded(old(expandedCards), other)
    {
      if !isDesktop {
        expandedCards := expandedCards[id := !Expanded(expandedCards, id)];
      }
    }

    /** Choosing a section in the tab strip or the drop-down. */
    method SelectSource(key: string)
      requires Valid()
      modifies this`activeSource
      ensures Valid()
      ensures activeSource == Some(key)
    {
      activeSource := Some(key);
    }

    /** Whether the card of `id` shows its content right now. */
    function ShowsContent(id: string): (shown: bool)
      reads this
      ensures isDesktop ==> shown
      ensures !isDesktop ==> (shown <==> Expanded(expandedCards, id))
    {
      CardContentShown(expandedCards, id, isDesktop)
    }
  }

  /** A freshly mounted component shows every card on a desktop viewport and
      none on a narrow one. */
  lemma MountedVisibility(data: Digest, width: int, id: string)
    requires data.Valid()
    ensures CardContentShown(InitialCards(data, IsDesktop(width)), id, IsDesktop(width)) <==> IsDesktop(width)
  {
    InitialCardsSpec(data, IsDesktop(width), id);
  }
}
