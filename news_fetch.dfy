/** The scraper: turns the parsed aggregator page into a record from section
    key to the stories of that section.

    The page is given as the part of the document tree the selectors reach:
    the `.source-section` elements in document order, each with its first `h2`
    text and its `.story` elements in document order, and for each story the
    first match of each field selector. */
module NewsFetch {
  import opened Wrappers
  import opened Text
  import JsRecord

  // ---------------------------------------------------------------------------
  // The document, as the selectors see it

  /** The `.title a` anchor: its text content and its href. */
  datatype Anchor = Anchor(text: string, href: string)

  /** The `.summary a[href*="item?id="]` anchor: its href and the text content
      of its parent element. */
  datatype CommentsAnchor = CommentsAnchor(href: string, parentText: string)

  /** The first `.summary` element: its text content, and the first match of
      `.summary a[href*="item?id="]` in the story. Selectors are taken as
      scoped to the story, so the anchor is stored with the story's first
      `.summary`, though in the page it may sit in a later one. */
  datatype SummaryElement = SummaryElement(text: string, commentsAnchor: Option<CommentsAnchor>)

  /** A `.story` element. Each optional field is the text content (or the href
      of `.archive-link`) of the first match of its selector, `None` when there
      is no match. */
  datatype StoryElement = StoryElement(
    id: string,
    titleAnchor: Option<Anchor>,
    domain: Option<string>,
    archiveHref: Option<string>,
    originalTitle: Option<string>,
    summary: Option<SummaryElement>,
    sourceBadge: Option<string>)

  /** A `.source-section` element: the text of its `h2`, if any, and its `.story` elements. */
  datatype SectionElement = SectionElement(heading: Option<string>, stories: seq<StoryElement>)

  datatype Document = Document(sections: seq<SectionElement>)

  // ---------------------------------------------------------------------------
  // The result

  /** One scraped item. The `Option` fields are the ones that may be `undefined`. */
  datatype Story = Story(
    id: string,
    source: string,
    title: string,
    originalTitle: Option<string>,
    link: string,
    domain: string,
    archiveLink: string,
    summary: Option<string>,
    commentsLink: Option<string>,
    commentsSummary: Option<string>)

  /** The digest: section key to the stories of that section, keys in the
      order they were first assigned. */
  type Digest = JsRecord.Record<seq<Story>>

  const OriginalTitlePrefix: string := "Original title: "
  const CommentsPrefix: string := "Comments:"

  /** Every field taken from text content has no whitespace at either end. */
  predicate TextFieldsTrimmed(s: Story) {
    && IsTrimmed(s.title)
    && IsTrimmed(s.domain)
    && IsTrimmed(s.source)
    && (s.originalTitle.Some? ==> IsTrimmed(s.originalTitle.value))
    && (s.summary.Some? ==> IsTrimmed(s.summary.value))
    && (s.commentsSummary.Some? ==> IsTrimmed(s.commentsSummary.value))
  }

  // ---------------------------------------------------------------------------
  // Field extraction

  /** The key of a section: the `h2` text, or "" without an `h2`, trimmed,
      lower-cased and with all whitespace removed. */
  function SectionKey(heading: Option<string>): (k: string)
    ensures NoWhitespace(k) && NoAsciiUpper(k)
    ensures heading.None? ==> k == ""
  {
    NormalizeName(heading.GetOr(""))
  }

  /** The key of a section with an `h2` is the heading lower-cased with all
      whitespace removed. */
  lemma SectionKeyValue(heading: string)
    ensures SectionKey(Some(heading)) == RemoveWhitespace(ToLower(heading))
  {
    NormalizeNameValue(heading);
  }

  /** `el?.textContent?.trim() || ""`. */
  function TextOrEmpty(text: Option<string>): (t: string)
    ensures IsTrimmed(t)
    ensures text.None? ==> t == ""
    ensures text.Some? ==> t == Trim(text.value)
  {
    match text
    case None => ""
    case Some(raw) => Trim(raw)
  }

  /** `el ? el.textContent.replace(/^prefix/, "").trim() : undefined`. */
  function StrippedText(text: Option<string>, prefix: string): (t: Option<string>)
    ensures t.Some? <==> text.Some?
    ensures t.Some? ==> IsTrimmed(t.value)
    ensures text.Some? ==> t == Some(Trim(StripPrefix(text.value, prefix)))
  {
    match text
    case None => None
    case Some(raw) => Some(Trim(StripPrefix(raw, prefix)))
  }

  /** One `.story` element as a Story. */
  function ExtractStory(el: StoryElement): (s: Story)
    ensures s.id == el.id
  {
    var title := match el.titleAnchor case None => "" case Some(a) => Trim(a.text);
    var link := match el.titleAnchor case None => "" case Some(a) => a.href;
    var summary := match el.summary case None => None case Some(sm) => Some(Trim(sm.text));
    var anchor := match el.summary case None => None case Some(sm) => sm.commentsAnchor;
    var commentsLink := match anchor case None => None case Some(c) => Some(c.href);
    var commentsSummary := match anchor case None => None case Some(c) => StrippedText(Some(c.parentText), CommentsPrefix);
    Story(
      id := el.id,
      source := TextOrEmpty(el.sourceBadge),
      title := title,
      originalTitle := StrippedText(el.originalTitle, OriginalTitlePrefix),
      link := link,
      domain := TextOrEmpty(el.domain),
      archiveLink := el.archiveHref.GetOr(""),
      summary := summary,
      commentsLink := commentsLink,
      commentsSummary := commentsSummary)
  }

  /** The defaults and cleanup of each field: the title anchor gives both
      `title` and `link` or neither, absent text fields read as "", the optional
      fields are present exactly when their element is, the two discussion
      fields come from the same anchor, the id and hrefs are copied unchanged,
      and every text field is its element's text trimmed, after removing
      "Original title: " or "Comments:" where the scraper strips them. */
  lemma ExtractStoryFields(el: StoryElement)
    ensures ExtractStory(el).id == el.id
    ensures el.titleAnchor.None? ==> ExtractStory(el).title == "" && ExtractStory(el).link == ""
    ensures el.titleAnchor.Some? ==> ExtractStory(el).link == el.titleAnchor.value.href
    ensures el.domain.None? ==> ExtractStory(el).domain == ""
    ensures el.archiveHref.None? ==> ExtractStory(el).archiveLink == ""
    ensures el.archiveHref.Some? ==> ExtractStory(el).archiveLink == el.archiveHref.value
    ensures el.sourceBadge.None? ==> ExtractStory(el).source == ""
    ensures ExtractStory(el).originalTitle.Some? <==> el.originalTitle.Some?
    ensures ExtractStory(el).summary.Some? <==> el.summary.Some?
    ensures ExtractStory(el).commentsLink.Some? <==> ExtractStory(el).commentsSummary.Some?
    ensures ExtractStory(el).commentsLink.Some? <==> el.summary.Some? && el.summary.value.commentsAnchor.Some?
    ensures ExtractStory(el).commentsLink.Some? ==> ExtractStory(el).commentsLink.value == el.summary.value.commentsAnchor.value.href
    ensures el.titleAnchor.Some? ==> ExtractStory(el).title == Trim(el.titleAnchor.value.text)
    ensures el.domain.Some? ==> ExtractStory(el).domain == Trim(el.domain.value)
    ensures el.sourceBadge.Some? ==> ExtractStory(el).source == Trim(el.sourceBadge.value)
    ensures el.originalTitle.Some? ==>
              ExtractStory(el).originalTitle == Some(Trim(StripPrefix(el.originalTitle.value, OriginalTitlePrefix)))
    ensures el.summary.Some? ==> ExtractStory(el).summary == Some(Trim(el.summary.value.text))
    ensures ExtractStory(el).commentsSummary.Some? ==>
              ExtractStory(el).commentsSummary.value == Trim(StripPrefix(el.summary.value.commentsAnchor.value.parentText, CommentsPrefix))
    ensures TextFieldsTrimmed(ExtractStory(el))
  {
  }

  /** The stories of a section: one per `.story` element, in document order. */
  function StoriesOf(els: seq<StoryElement>): (r: seq<Story>)
    ensures |r| == |els|
    ensures forall i :: 0 <= i < |els| ==> r[i] == ExtractStory(els[i])
  {
    if els == [] then [] else StoriesOf(els[..|els| - 1]) + [ExtractStory(els[|els| - 1])]
  }

  /** The (key, stories) assignment each section makes, in document order. */
  function SectionEntries(sections: seq<SectionElement>): (es: seq<(string, seq<Story>)>)
    ensures |es| == |sections|
    ensures forall i :: 0 <= i < |sections| ==>
              es[i] == (SectionKey(sections[i].heading), StoriesOf(sections[i].stories))
  {
    seq(|sections|, i requires 0 <= i < |sections| =>
      (SectionKey(sections[i].heading), StoriesOf(sections[i].stories)))
  }

  /** The digest of a sequence of sections: each section in turn assigns its
      stories to its key. */
  function DigestOf(sections: seq<SectionElement>): (d: Digest)
    ensures d.Valid()
  {
    JsRecord.AssignAll(SectionEntries(sections))
  }

  // ---------------------------------------------------------------------------
  // parseHTML

  /** The inner walk over one section's `.story` elements: one Story pushed
      per element, in document order. */
  method CollectStories(section: SectionElement) returns (stories: seq<Story>)
    ensures |stories| == |section.stories|
    ensures stories == StoriesOf(section.stories)
  {
    stories := [];
    var m := 0;
    while m < |section.stories|
      invariant m <= |section.stories|
      invariant stories == StoriesOf(section.stories[..m])
    {
      stories := stories + [ExtractStory(section.stories[m])];
      m := m + 1;
      assert section.stories[..m][..m - 1] == section.stories[..m - 1];
    }
    assert section.stories[..m] == section.stories;
  }

  /** Walks the sections in document order, collects each section's stories
      and assigns them to the section's key. */
  method ParseHTML(doc: Document) returns (sourceSections: Digest)
    ensures sourceSections.Valid()
    ensures sourceSections == DigestOf(doc.sections)
  {
    sourceSections := JsRecord.Empty();
    var n := 0;
    while n < |doc.sections|
      invariant n <= |doc.sections|
      invariant sourceSections == DigestOf(doc.sections[..n])
    {
      var section := doc.sections[n];
      var key := SectionKey(section.heading);
      var stories := CollectStories(section);
      DigestOfStep(doc.sections, n);
      sourceSections := JsRecord.Assign(sourceSections, key, stories);
      n := n + 1;
    }
    assert doc.sections[..n] == doc.sections;
  }

  /** Walking one more section assigns its stories to its key. */
  lemma DigestOfStep(sections: seq<SectionElement>, n: nat)
    requires n < |sections|
    ensures DigestOf(sections[..n + 1]) ==
              JsRecord.Assign(DigestOf(sections[..n]), SectionKey(sections[n].heading), StoriesOf(sections[n].stories))
  {
    var es := SectionEntries(sections[..n + 1]);
    assert es[..n] == SectionEntries(sections[..n]);
    assert es[n] == (SectionKey(sections[n].heading), StoriesOf(sections[n].stories));
  }

  // ---------------------------------------------------------------------------
  // Properties of the digest

  /** The keys of the digest are exactly the keys of the sections. */
  lemma DigestKeys(sections: seq<SectionElement>, k: string)
    ensures k in DigestOf(sections).entries <==>
            exists i :: 0 <= i < |sections| && SectionKey(sections[i].heading) == k
  {
    var es := SectionEntries(sections);
    JsRecord.AssignAllKeys(es, k);
    if exists i :: 0 <= i < |sections| && SectionKey(sections[i].heading) == k {
      var i :| 0 <= i < |sections| && SectionKey(sections[i].heading) == k;
      assert es[i].0 == k;
    }
  }

  /** There are at most as many keys as sections, and at least one when there
      is a section. */
  lemma DigestSize(sections: seq<SectionElement>)
    ensures |DigestOf(sections).keys| <= |sections|
    ensures |DigestOf(sections).entries| == |DigestOf(sections).keys|
    ensures sections != [] ==> |DigestOf(sections).entries| >= 1
  {
    JsRecord.AssignAllSize(SectionEntries(sections));
  }

  /** Last write wins: a section's key holds that section's stories, one per
      `.story` element in document order, when no later section has the same
      key. */
  lemma DigestLastWriteWins(sections: seq<SectionElement>, i: nat)
    requires i < |sections|
    requires forall j :: i < j < |sections| ==> SectionKey(sections[j].heading) != SectionKey(sections[i].heading)
    ensures SectionKey(sections[i].heading) in DigestOf(sections).entries
    ensures DigestOf(sections).entries[SectionKey(sections[i].heading)] == StoriesOf(sections[i].stories)
    ensures |DigestOf(sections).entries[SectionKey(sections[i].heading)]| == |sections[i].stories|
  {
    var es := SectionEntries(sections);
    JsRecord.AssignAllLastWins(es, i);
  }

  /** When no two sections share a key, each section contributes its own key,
      in document order. */
  lemma DigestDistinctKeys(sections: seq<SectionElement>)
    requires forall i, j :: 0 <= i < j < |sections| ==> SectionKey(sections[i].heading) != SectionKey(sections[j].heading)
    ensures |DigestOf(sections).keys| == |sections|
    ensures forall i :: 0 <= i < |sections| ==> DigestOf(sections).keys[i] == SectionKey(sections[i].heading)
  {
    JsRecord.AssignAllDistinct(SectionEntries(sections));
  }

  /** The first key of the digest is the key of the first section. */
  lemma DigestFirstKey(sections: seq<SectionElement>)
    ensures sections == [] ==> JsRecord.FirstKey(DigestOf(sections)) == None
    ensures sections != [] ==> JsRecord.FirstKey(DigestOf(sections)) == Some(SectionKey(sections[0].heading))
  {
    JsRecord.AssignAllFirstKey(SectionEntries(sections));
  }

  // ---------------------------------------------------------------------------
  // Worked examples

  /** A story element with none of its sub-elements gives empty strings for the
      always-present fields and leaves the optional ones out. */
  lemma BareStoryDefaults(id: string)
    ensures ExtractStory(StoryElement(id, None, None, None, None, None, None))
         == Story(id, "", "", None, "", "", "", None, None, None)
  {
  }

  /** The original-title prefix is removed when the text starts with it exactly. */
  lemma {:induction false} OriginalTitleStripped(t: string)
    requires IsTrimmed(t)
    ensures StrippedText(Some(OriginalTitlePrefix + t), OriginalTitlePrefix) == Some(t)
  {
    StripPrefixOfConcat(OriginalTitlePrefix, t);
    TrimOfTrimmed(t);
  }

  /** Text that does not start with the prefix exactly (a different case, a
      leading space) is only trimmed. */
  lemma OriginalTitleUnprefixed(raw: string)
    requires !(OriginalTitlePrefix <= raw)
    ensures StrippedText(Some(raw), OriginalTitlePrefix) == Some(Trim(raw))
  {
  }

  /** A discussion anchor whose parent reads "Comments: 42 points" gives that
      href as the comments link and "42 points" as the comments summary. */
  lemma {:induction false} CommentsExample(id: string, href: string)
    ensures var s := ExtractStory(StoryElement(id, None, None, None, None,
                       Some(SummaryElement("Comments: 42 points", Some(CommentsAnchor(href, "Comments: 42 points")))), None));
            s.commentsLink == Some(href) && s.commentsSummary == Some("42 points")
  {
    var rest := " 42 points";
    assert CommentsPrefix + rest == "Comments: 42 points";
    StripPrefixOfConcat(CommentsPrefix, rest);
    assert rest[1..10] == "42 points";
    TrimUnique(rest, 1, |rest|);
  }

  /** The heading "Top Stories" gives the key "topstories". */
  lemma TopStoriesKey(heading: string)
    requires heading == "Top Stories"
    ensures SectionKey(Some(heading)) == "topstories"
  {
    TopStoriesWords(heading);
    TopStoriesLower();
  }

  lemma TopStoriesWords(heading: string)
    requires heading == "Top Stories"
    ensures NormalizeName(heading) == ToLower("Top") + ToLower("Stories")
  {
    var top, stories := "Top", "Stories";
    assert heading == top + " " + stories;
    assert NoWhitespace(top) && NoWhitespace(stories);
    NormalizeTwoWords(top, stories);
  }

  lemma TopStoriesLower()
    ensures ToLower("Top") + ToLower("Stories") == "topstories"
  {
    assert ToLower("Top") == "top";
    assert ToLower("Stories") == "stories";
  }

  /** The heading "new" is its own key. */
  lemma NewKey(heading: string)
    requires heading == "new"
    ensures SectionKey(Some(heading)) == "new"
  {
    assert NoWhitespace(heading) && NoAsciiUpper(heading);
    NormalizeNameOfKey(heading);
  }

  /** Two sections with different keys give those two keys, in document order,
      each holding its own section's stories. */
  lemma DigestTwoSections(x: SectionElement, y: SectionElement)
    requires SectionKey(x.heading) != SectionKey(y.heading)
    ensures DigestOf([x, y]).keys == [SectionKey(x.heading), SectionKey(y.heading)]
    ensures SectionKey(x.heading) in DigestOf([x, y]).entries
    ensures DigestOf([x, y]).entries[SectionKey(x.heading)] == StoriesOf(x.stories)
    ensures SectionKey(y.heading) in DigestOf([x, y]).entries
    ensures DigestOf([x, y]).entries[SectionKey(y.heading)] == StoriesOf(y.stories)
  {
    var ex := (SectionKey(x.heading), StoriesOf(x.stories));
    var ey := (SectionKey(y.heading), StoriesOf(y.stories));
    SectionEntriesTwo(x, y);
    JsRecord.AssignAllTwo(ex, ey);
  }

  /** The assignments two sections make. */
  lemma SectionEntriesTwo(x: SectionElement, y: SectionElement)
    ensures SectionEntries([x, y]) ==
              [(SectionKey(x.heading), StoriesOf(x.stories)), (SectionKey(y.heading), StoriesOf(y.stories))]
  {
  }

  /** Two sections headed "Top Stories" and "new", one story each, give the
      keys "topstories" and "new", in that order, each holding its section's
      one story. */
  lemma TwoSectionExample(first: string, second: string, a: StoryElement, b: StoryElement)
    requires first == "Top Stories" && second == "new"
    ensures var d := DigestOf([SectionElement(Some(first), [a]), SectionElement(Some(second), [b])]);
            && d.keys == ["topstories", "new"]
            && "topstories" in d.entries && d.entries["topstories"] == [ExtractStory(a)]
            && "new" in d.entries && d.entries["new"] == [ExtractStory(b)]
  {
    TopStoriesKey(first);
    NewKey(second);
    DigestTwoSections(SectionElement(Some(first), [a]), SectionElement(Some(second), [b]));
  }
}
