# News digest scraper and card state, modelled in Dafny

The news digest app reads one aggregator page and splits it into sections of
stories. `parseHTML` walks the `.source-section` elements in document order.
For each one it reads the `h2` heading and normalises it into a key: trimmed,
lower-cased, with all whitespace removed. It then turns every `.story` element
of the section into a `Story` record and assigns the list of stories to that
key. A later section with the same key replaces an earlier one. The client
component shows one section at a time. On a narrow viewport each story card can
be expanded or collapsed. On a desktop viewport (1024 pixels and wider) every
card is shown.

The model has five modules:

- `Wrappers` (`wrappers.dfy`): the `Option` type used for `undefined`.
- `Text` (`text.dfy`): the string cleanup the scraper uses. This covers
  `trim()` over the exact ECMAScript whitespace set, `toLowerCase()` on ASCII
  letters, `replace(/\s+/g, "")`, `replace(/^prefix/, "")`, and section-name
  normalisation.
- `JsRecord` (`records.dfy`): a JavaScript object used as a string-keyed
  dictionary. Assignment appends a new key or overwrites an existing one in
  place. `Object.keys` lists keys in first-assignment order. It also holds the
  generic fold `AssignAll`, which assigns a list of pairs in turn.
- `NewsFetch` (`news_fetch.dfy`): the document reduced to what the selectors
  reach (`Document`, `SectionElement`, `StoryElement`, ...), the `Story`
  record, field extraction, the specification `DigestOf`, and `ParseHTML`.
  `ParseHTML` is the imperative nested loop, proved equal to `DigestOf`.
- `NewsDigestUi` (`news_digest.dfy`): the breakpoint test, the reset of the
  expansion map, the toggle update and the visibility rules. It also has the
  class `NewsDigest`, which holds the component's state (`newsData`,
  `activeSource`, `expandedCards`, `isDesktop`). Its methods are the event
  handlers and effects.

The network fetch is left out. `ParseHTML` takes the already-parsed document
as its parameter.

## Model

| member | source | states |
|---|---|---|
| `Text.Trim` | app/server/news_fetch.ts:29 | The result has no whitespace at either end. It is the input with a whitespace-only prefix and a whitespace-only suffix cut off. |
| `Text.TrimUnique` | app/server/news_fetch.ts:38 | trim() is determined by its input: for any split into a whitespace run, a trimmed middle and a whitespace run, trim() returns that middle. |
| `Text.TrimOfTrimmed` | app/server/news_fetch.ts:53 | Trimming text with no whitespace at its ends changes nothing. |
| `Text.TrimIdempotent` | app/server/news_fetch.ts:29 | Trimming twice gives the same result as trimming once. |
| `Text.ToLower` | app/server/news_fetch.ts:30 | Lower-casing keeps the length, leaves no upper-case ASCII letter, and neither creates nor removes whitespace at any position. |
| `Text.ToLowerOfLower` | app/server/news_fetch.ts:30 | A string with no upper-case letter is its own lower case. |
| `Text.ToLowerConcat` | app/server/news_fetch.ts:30 | Lower-casing works character by character, so it distributes over concatenation. |
| `Text.RemoveWhitespace` | app/server/news_fetch.ts:30 | The result has no whitespace. A character occurs in it exactly when it occurs in the input and is not whitespace. |
| `Text.RemoveWhitespaceOfClean` | app/server/news_fetch.ts:30 | Removing whitespace from a string that has none changes nothing. |
| `Text.RemoveWhitespaceConcat` | app/server/news_fetch.ts:30 | Whitespace removal distributes over concatenation. |
| `Text.RemoveWhitespaceKeepsLower` | app/server/news_fetch.ts:30 | Removing whitespace from a lower-case string keeps it lower-case. |
| `Text.RemoveWhitespaceOfBlank` | app/server/news_fetch.ts:30 | A string made only of whitespace is removed entirely. |
| `Text.StripPrefix` | app/server/news_fetch.ts:48 | The result is either the input unchanged, or the input with the prefix removed when the input starts with the prefix. |
| `Text.StripPrefixOfConcat` | app/server/news_fetch.ts:48 | Stripping the prefix undoes prepending it. |
| `Text.StripPrefixAbsent` | app/server/news_fetch.ts:65 | Text that does not start with the prefix is left unchanged. |
| `Text.NormalizeName` | app/server/news_fetch.ts:28-30 | A section key contains no whitespace and no upper-case letter; its value is given by `NormalizeNameValue`. |
| `Text.NormalizeNameValue` | app/server/news_fetch.ts:28-30 | For every name, the key is the name lower-cased with all whitespace removed: the leading trim makes no difference. |
| `Text.RemoveWhitespacePadded` | app/server/news_fetch.ts:29-30 | Whitespace around a string vanishes once the whole is lower-cased and its whitespace removed. |
| `Text.NormalizeNameOfKey` | app/server/news_fetch.ts:30 | A string without whitespace or upper-case letters is its own key. |
| `Text.NormalizeNameIdempotent` | app/server/news_fetch.ts:28-30 | Normalising a key again changes nothing. |
| `Text.NormalizeTwoWords` | app/server/news_fetch.ts:28-30 | Two whitespace-free words separated by a space normalise to both words lower-cased and joined. |
| `Text.ToLowerSpaced` | app/server/news_fetch.ts:30 | Lower-casing keeps a separating space in place. |
| `Text.RemoveSpace` | app/server/news_fetch.ts:30 | Removing whitespace from two clean words around a space joins the words. |
| `JsRecord.Empty` | app/server/news_fetch.ts:22 | `{}` is a well-formed record with no keys. |
| `JsRecord.Assign` | app/server/news_fetch.ts:86 | Assignment keeps the record well formed and sets the key's value. A new key goes to the end of the key order; an existing key keeps its place. |
| `JsRecord.FirstKey` | components/news_digest.tsx:26 | `Object.keys(o)[0]` is undefined exactly when the record is empty. Otherwise it is a stored key. |
| `JsRecord.Values` | components/news_digest.tsx:45 | `Object.values` lists one value per key, in key order. |
| `JsRecord.SizeIsKeyCount` | app/server/news_fetch.ts:22 | A record stores exactly as many entries as it lists keys. |
| `JsRecord.AssignAll` | app/server/news_fetch.ts:27-87 | Assigning a list of pairs in turn yields a well-formed record. |
| `JsRecord.AssignAllKeys` | app/server/news_fetch.ts:86 | A key is stored exactly when some pair assigned it. |
| `JsRecord.AssignAllSize` | app/server/news_fetch.ts:24-27 | There are at most as many keys as assignments, and at least one key when there was an assignment. |
| `JsRecord.AssignAllTwo` | app/server/news_fetch.ts:86 | Assigning two different keys lists both, in assignment order, each with its own value. |
| `JsRecord.AssignAllLastWins` | app/server/news_fetch.ts:86 | A key holds the value of the last pair that assigned it. |
| `JsRecord.AssignAllDistinct` | app/server/news_fetch.ts:86 | When all keys are distinct, the key order is the assignment order. |
| `JsRecord.AssignAllFirstKey` | components/news_digest.tsx:26 | The first listed key is the first key assigned, or undefined when nothing was assigned. |
| `NewsFetch.SectionKey` | app/server/news_fetch.ts:28-30 | The key has no whitespace and no upper-case letter. A section without an `h2` gets the key "". |
| `NewsFetch.SectionKeyValue` | app/server/news_fetch.ts:28-30 | A section with an `h2` gets that heading lower-cased with all whitespace removed as its key. |
| `NewsFetch.TextOrEmpty` | app/server/news_fetch.ts:40-41 | A present element gives its text trimmed. A missing element gives "". |
| `NewsFetch.StrippedText` | app/server/news_fetch.ts:44-50 | An optional, prefix-stripped text is present exactly when its element is. When present, it is the element's text with a leading prefix removed and then trimmed. |
| `NewsFetch.ExtractStory` | app/server/news_fetch.ts:36-82 | Each `.story` element becomes one Story carrying the element's id; the value of every other field is stated by `ExtractStoryFields`. |
| `NewsFetch.ExtractStoryFields` | app/server/news_fetch.ts:36-82 | `id` is copied. Without a title anchor, `title` and `link` are both ""; with one, `title` is the anchor's text trimmed and `link` its href. `domain` and `source` are their element's text trimmed, or "" without the element. `archiveLink` is the href as given, or "". `originalTitle` is present exactly when its element is, and is its text with a leading "Original title: " removed, then trimmed. `summary` is present exactly when `.summary` is, and is its text trimmed. The two discussion fields are present together, exactly when there is a discussion anchor: the link is the anchor's href and the summary is its parent's text with a leading "Comments:" removed, then trimmed. |
| `NewsFetch.StoriesOf` | app/server/news_fetch.ts:32-35 | A section yields one Story per `.story` element, in document order. |
| `NewsFetch.SectionEntries` | app/server/news_fetch.ts:27-33 | Each section contributes one (key, stories) assignment, in document order. |
| `NewsFetch.DigestOf` | app/server/news_fetch.ts:27-87 | The digest is a well-formed record. |
| `NewsFetch.CollectStories` | app/server/news_fetch.ts:32-83 | The loop over one section's `.story` elements pushes exactly `StoriesOf(section.stories)`: one Story per element, in document order. |
| `NewsFetch.DigestOfStep` | app/server/news_fetch.ts:27-86 | Walking one more section assigns that section's stories to its key in the digest built so far. |
| `NewsFetch.ParseHTML` | app/server/news_fetch.ts:18-90 | The nested loop over sections and stories produces exactly `DigestOf(doc.sections)`. |
| `NewsFetch.DigestKeys` | app/server/news_fetch.ts:86 | The digest's keys are exactly the keys of the sections. |
| `NewsFetch.DigestSize` | app/server/news_fetch.ts:24-27 | There are at most as many keys as sections, and at least one key when there is a section. |
| `NewsFetch.DigestLastWriteWins` | app/server/news_fetch.ts:86 | A section's key holds that section's stories (one per `.story` element, in order, possibly none) when no later section has the same key. |
| `NewsFetch.DigestDistinctKeys` | app/server/news_fetch.ts:86 | With pairwise distinct section keys, there is one key per section, in document order. |
| `NewsFetch.DigestFirstKey` | components/news_digest.tsx:26 | The digest's first key is the first section's key. An empty page has no first key. |
| `NewsFetch.DigestTwoSections` | app/server/news_fetch.ts:86 | Two sections with different keys give both keys, in order, each holding its own stories. |
| `NewsFetch.BareStoryDefaults` | app/server/news_fetch.ts:37-69 | A story with no sub-elements gets "" for title, source, link, domain and archive link, and no original title, summary or discussion fields. |
| `NewsFetch.OriginalTitleStripped` | app/server/news_fetch.ts:44-50 | "Original title: " followed by trimmed text gives exactly that text. |
| `NewsFetch.OriginalTitleUnprefixed` | app/server/news_fetch.ts:48-49 | Text that does not start with "Original title: " exactly is only trimmed. |
| `NewsFetch.CommentsExample` | app/server/news_fetch.ts:55-66 | A discussion anchor whose parent reads "Comments: 42 points" gives that anchor's href and the summary "42 points". |
| `NewsFetch.TopStoriesKey` | app/server/news_fetch.ts:28-30 | The heading "Top Stories" gives the key "topstories". |
| `NewsFetch.NewKey` | app/server/news_fetch.ts:28-30 | The heading "new" gives the key "new". |
| `NewsFetch.TwoSectionExample` | app/server/news_fetch.ts:18-90 | Sections "Top Stories" and "new", with one story each, give keys "topstories" then "new", each holding its one story. |
| `NewsDigestUi.IsDesktop` | components/news_digest.tsx:33-35 | The viewport is desktop exactly when its width is at least 1024. |
| `NewsDigestUi.Expanded` | components/news_digest.tsx:153 | `expandedCards[id]` read as a condition: a present entry reads as its value, and a missing entry reads as false (after a reset no article id is missing; an id naming an `Object.prototype` member such as "toString" would read the inherited value instead). |
| `NewsDigestUi.ArticleIds` | components/news_digest.tsx:45-47 | An id is listed exactly when some story of some section has it. |
| `NewsDigestUi.FromEntries` | components/news_digest.tsx:44-48 | The map's keys are exactly the listed ids, and each maps to the given value. |
| `NewsDigestUi.InitialCards` | components/news_digest.tsx:43-48 | After a reset, a card reads as expanded exactly when the viewport is desktop and the card is in the map; the keys are given by `InitialCardsSpec`. |
| `NewsDigestUi.InitialCardsSpec` | components/news_digest.tsx:42-50 | After a reset, the keys are exactly the article ids of every section, and each maps to the current viewport flag. |
| `NewsDigestUi.Toggle` | components/news_digest.tsx:52-59 | On desktop nothing changes. On a narrow viewport the entry for `id` becomes the negation of its reading, where a missing entry reads as false. Every other entry keeps its presence and value. |
| `NewsDigestUi.ToggleTwice` | components/news_digest.tsx:52-57 | On a narrow viewport, toggling the same card twice restores whether it is expanded, and does not change how any other card reads. |
| `NewsDigestUi.CardContentShown` | components/news_digest.tsx:153 | On desktop every card shows its content. On a narrow viewport a card shows it exactly when its entry reads true. |
| `NewsDigestUi.DiscussionShown` | components/news_digest.tsx:163 | The condition at :163 holds exactly when the discussion summary is present and non-empty. |
| `NewsDigestUi.DiscussionVisible` | components/news_digest.tsx:153-163 | The discussion block is visible only inside shown card content: on desktop exactly when the condition at :163 holds; on a narrow viewport never for a collapsed card, and for an expanded card exactly when that condition holds. |
| `NewsDigestUi.MountedVisibility` | components/news_digest.tsx:153 | Right after a reset, a card shows its content exactly when the viewport is desktop. |
| `NewsDigestUi.NewsDigest.constructor` | components/news_digest.tsx:25-50 | Mounting makes the digest's first key active, measures the viewport, and resets every card to the viewport flag. |
| `NewsDigestUi.NewsDigest.Resize` | components/news_digest.tsx:32-50 | The flag follows the breakpoint. The cards are reset only when the flag changes. The digest and the active section are untouched. On desktop every card shows its content; after narrowing from desktop, none does. |
| `NewsDigestUi.NewsDigest.ReceiveData` | components/news_digest.tsx:42-50 | A new digest resets the cards for the current flag and keeps the active section. Afterwards every card shows its content exactly when the viewport is desktop. |
| `NewsDigestUi.NewsDigest.ToggleCard` | components/news_digest.tsx:52-59 | The new card map is `Toggle` of the old one. On desktop nothing changes. Otherwise only `id`'s reading flips. The invariant (on desktop the cards equal the reset map) is kept. |
| `NewsDigestUi.NewsDigest.SelectSource` | components/news_digest.tsx:73-81 | Choosing a tab or drop-down item makes it the active section and changes nothing else. |
| `NewsDigestUi.NewsDigest.ShowsContent` | components/news_digest.tsx:153 | In the component's current state, a card shows its content on desktop, or on a narrow viewport when its entry reads true. |

## Left out

- `fetchNewsSummary` (app/server/news_fetch.ts:92-97) is a network request to a fixed URL followed by a call to `parseHTML`. It is I/O and is not modelled. `ParseHTML` takes the parsed document as its input.
- Building the document tree and matching CSS selectors are library behaviour. `Document` already holds each selector's first match, with selectors taken as scoped to the story. The first `.summary a[href*="item?id="]` match of a story is stored with the story's first `.summary` element, though in the page it may sit in a later `.summary`. `Element.querySelector` also matches when the `.summary` class is on the story element itself or on one of its ancestors. There `.summary` finds nothing while the anchor is found, so `summary` is undefined and both discussion fields are present. `StoryElement` does not represent that case, and `ExtractStoryFields` states that the discussion fields come only with a summary.
- The URL resolution an anchor's `.href` performs is not modelled. Hrefs are copied as opaque strings, so the `item?id=` pattern of the discussion link is not checked either.
- `NewsFetch.ExtractStoryFields`: the `.archive-link` match is taken to be a link element, so its href is a string. When the match is some other element (a `<span>`, say), `.href` is undefined, and so is the code's `archiveLink` (app/server/news_fetch.ts:42-43). `StoryElement` and `ExtractStoryFields` do not represent that case. The `.title a` and `a[href*="item?id="]` matches are always anchors, so no other field is affected.
- `Text.ToLower`: only ASCII letters are lower-cased. The Unicode case mapping of `toLowerCase` is not modelled.
- `JsRecord.Assign`: the key "__proto__" is treated like any other key. In JavaScript, `o["__proto__"] = v` on `{}` calls the inherited setter: it replaces the prototype and adds no own key. A page whose section heading normalises to "__proto__" (say "__Proto__") therefore yields a record without that key, while the model lists it, and `DigestKeys`, `DigestSize` and `DigestFirstKey` count it.
- `JsRecord.FirstKey`: JavaScript lists keys that are array indices (such as "2024") first, in numeric order. The model keeps plain first-assignment order for every key.
- `textContent` is never null for an element. So the `textContent?.` null branches at app/server/news_fetch.ts:29, 38, 41, 47, 53, 65 and 69 are not modelled. A missing element, which is what the `?.` right after each `querySelector` guards against, is modelled as `None`. The parent of a matched anchor (`parentElement` at app/server/news_fetch.ts:61-64) always exists, so the case where it is missing is not modelled either. A missing anchor at :63 is modelled: `commentsAnchor == None` leaves both discussion fields absent.
- The story ids are copied as found, and the model does not promise they are unique. The code does not enforce uniqueness. When two articles share an id, `Object.fromEntries` keeps one entry for them, and they share that entry, as in the model.
- The `"Comments:"` prefix is removed from the raw parent text before trimming (app/server/news_fetch.ts:65). Text with leading whitespace before "Comments:" therefore keeps the word. The model follows the code here, as `StripPrefixAbsent` states.
- React scheduling is not modelled step by step. The constructor starts from the initial state (`isDesktop` false, cards reset for false) and then applies `Resize`, giving the state the mount effects settle into. A resize that keeps the flag does not re-run the reset, since the effect depends only on `isDesktop` and `newsData`.
- Registering and removing the resize listener, and all JSX rendering (tabs, drop-down, card layout, chevron rotation, links), are not modelled. They are presentation.
- app/page.tsx only fetches the digest and renders the component, so it has no logic to model.
