# Vodena Bašta contact pipeline and site helpers, in Dafny

This project is a model of the decision logic of the Vodena Bašta marketing
site, a Next.js application, with proofs about that model. The main part is
the contact pipeline:

- the `POST /api/contact` handler checks a JSON body against its request
  schema and writes one row to the `contact_messages` table through Supabase;
- the client-side `ContactForm` has its own schema, a honeypot field, a
  per-field error map and a status with a message, and it reports every
  status change to its host;
- `ContactPanel` turns success and error reports into a toast that a timer
  hides again.

Around it are the pure helpers and small stateful components the site's
behaviour depends on:

- `cn` and `supabasePublicUrl`;
- the canonical URL;
- the gallery's alt text and row split;
- the project carousel's index arithmetic;
- the blog listing's filter, links and labels;
- the blog page's ordering by date and its Open Graph image;
- the navbar's and mobile menu's click dispatch, which decides between
  scrolling to a section and navigating, and the navbar's active section and
  scroll state;
- the back link's referrer rule.

Choices that shape the model:

- Each source file is one Dafny module. `Wrappers` (an `Option`) and
  `JsString` are shared. `JsString` holds the JavaScript string operations the
  code calls: `trim` with ECMAScript's white-space set, `split` on one
  character, `join`, `includes` and `startsWith`.
- Components whose state React updates in place are classes:
  - `ContactForm.Form`, `ContactPanel.Panel`, `Navbar.Nav`, `BackLink.Link`,
    `ProjectCarousel.Carousel` and `BlogListing.Listing`;
  - their methods change only what they declare, and say what the new state is.
- Pure logic is functions, with lemmas about them:
  - the endpoint, the issue lists of both schemas, and the click dispatch;
  - the click dispatch is a list of effects (scroll, push, select, close) in
    the order they happen.
- The loop that builds the form's `fieldErrors` is a `while` loop in
  `ContactForm.CollectFieldErrors`, proved equal to the fold `FieldErrors`.
- Input and output are parameters:
  - the email grammar of zod is an uninterpreted predicate `isEmail`, used by
    both schemas;
  - what `fetch` returns, what the Supabase insert reports, the Supabase
    environment variables, `document.referrer`, `window.scrollY` and the
    intersection observer's entries are all parameters;
  - the `length` that zod's `min` and `max` compare is
    `JsString.Utf16Length`, counted in UTF-16 code units as in JavaScript:
    a character above U+FFFF is one Dafny `char` but counts twice;
  - dates are integer sort keys.

The endpoint has no rate limiting, no email dispatch and no server-side
honeypot check: the `website` field is sent by the form but ignored by the
schema (`ContactRoute.UnknownKeysIgnored`). A valid request becomes a database
insert. The model follows the code.

## Model

| member | source | states |
|---|---|---|
| JsString.TrimStart | src/components/ContactForm.tsx:78 | the result is a suffix, what was dropped is white space, and the result starts with a non-white-space character or is empty |
| JsString.TrimEnd | src/components/ContactForm.tsx:78 | the result is a prefix, what was dropped is white space, and no non-white-space character is dropped |
| JsString.Trim | src/components/AboutUsGallery.tsx:77 | the result neither starts nor ends with white space (what it removes is stated by `TrimRemovesOnlyEnds`) |
| JsString.TrimSplit | src/components/AboutUsGallery.tsx:77 | a prefix of a suffix of `s` sits in `s` right after the dropped prefix and is followed exactly by the rest of the suffix |
| JsString.TrimRemovesOnlyEnds | src/components/AboutUsGallery.tsx:77 | `trim` removes a white-space prefix and a white-space suffix and nothing else: the result is a slice of the input with only white space before and after it |
| JsString.TrimPlacement | src/components/AboutUsGallery.tsx:77 | the result of `trim` occurs in its input right after the white space `trimStart` drops, so nothing in the middle is removed |
| JsString.TrimDropsTrailingWhitespace | src/components/AboutUsGallery.tsx:77 | everything in the input after the result of `trim` is white space |
| JsString.Utf16Length | src/app/api/contact/route.ts:11 | `length` counts every character once and each character above U+FFFF twice, so it lies between the number of characters and twice that |
| JsString.Utf16LengthOfBmp | src/app/api/contact/route.ts:11 | when no character is above U+FFFF, `length` is the number of characters |
| JsString.AstralCharCountsTwice | src/app/api/contact/route.ts:11 | one emoji is one character but has `length` 2 |
| JsString.TrimEmptyIff | src/components/ContactForm.tsx:78 | `trim()` gives "" exactly when every character is white space |
| JsString.IncludesIff | src/components/BackLink.tsx:28 | `includes` holds exactly when the string occurs at some index |
| JsString.Split | src/components/Navbar.tsx:51 | `split` gives at least one piece, and no piece contains the separator |
| JsString.JoinWithLength | src/lib/utils.ts:18 | the joined length is the sum of the piece lengths plus one per separator |
| JsString.JoinSplit | src/components/Navbar.tsx:51 | joining the pieces of a split with the same separator gives back the string |
| JsString.SplitJoin | src/lib/utils.ts:18 | splitting a join of separator-free pieces gives back the pieces |
| JsString.SplitPieceThenSeparator | src/components/Navbar.tsx:51 | a separator-free prefix followed by the separator is the first piece |
| JsString.SplitWithoutSeparator | src/components/Navbar.tsx:51 | without the separator a string splits into just itself |
| ClassNames.TrueKeys | src/lib/utils.ts:14-16 | the class names of a record are exactly the keys paired with `true` |
| ClassNames.TrueKeysAppend | src/lib/utils.ts:14-16 | the keys of consecutive entries come out in entry order |
| ClassNames.PartsAppend | src/lib/utils.ts:4-17 | `flatMap` keeps argument order: the parts of a concatenation are the concatenated parts |
| ClassNames.AllFalsyEmpty | src/lib/utils.ts:6-8 | only falsy arguments give "" |
| ClassNames.StringIsVerbatim | src/lib/utils.ts:10-12 | a non-empty string argument is kept as it is |
| ClassNames.RecordContributesTrueKeys | src/lib/utils.ts:14-16 | a record contributes exactly the names whose condition is true |
| ClassNames.FalsyArgumentIgnored | src/lib/utils.ts:6-8 | a falsy argument anywhere changes nothing |
| ClassNames.JoinedBySingleSpaces | src/lib/utils.ts:18 | when no part contains a space, splitting the result on " " gives back the parts |
| ClassNames.CnAppend | src/lib/utils.ts:3-19 | one more non-empty argument appends " " and its parts |
| ClassNames.JoinAppend | src/lib/utils.ts:18 | joining two non-empty lists is joining each and putting one space between |
| ClassNames.NoDeduplication | src/lib/utils.ts:3-19 | repeated names are not removed |
| Images.StripLeadingSlashes | src/lib/images.ts:5 | `replace(/^\/+/, "")` drops exactly the leading slashes, and the rest does not start with "/" |
| Images.UrlShape | src/lib/images.ts:1-7 | every URL is the public storage prefix followed by the path without its leading slashes |
| Images.LeadingSlashIrrelevant | src/lib/images.ts:4-7 | "/p" and "p" give the same URL |
| Images.UnslashedPathAppended | src/lib/images.ts:4-7 | a path not starting with "/" is appended unchanged |
| CanonicalUrl.BaseUrl | src/components/CanonicalURL.tsx:6 | the environment value if set, else "https://vodenabasta.rs" |
| CanonicalUrl.CanonicalHrefShape | src/components/CanonicalURL.tsx:11-14 | "/" gives exactly the base URL, any other path p gives base + p, and the base is always a prefix |
| CanonicalUrl.CanonicalHrefInjective | src/components/CanonicalURL.tsx:11-14 | two paths give the same href exactly when they are equal or are "/" and "" |
| AboutUsGallery.ReplaceSeparators | src/components/AboutUsGallery.tsx:74 | every "-" and "_" becomes a space, and every other character stays where it is |
| AboutUsGallery.StripExtension | src/components/AboutUsGallery.tsx:75 | a final ".ext" with a non-empty extension and no further dot is removed; otherwise nothing changes |
| AboutUsGallery.CollapseWhitespace | src/components/AboutUsGallery.tsx:76 | runs of white space become one space: the only white space left is " ", no two white-space characters are adjacent, the result starts with white space exactly when the input does, and the non-white-space characters are kept in order |
| AboutUsGallery.CollapseKeepsLast | src/components/AboutUsGallery.tsx:76 | the result ends in white space exactly when the input does |
| AboutUsGallery.Words | src/components/AboutUsGallery.tsx:76 | an independent reference: the maximal runs of non-white-space characters, in order; a string that starts with a non-white-space character has at least one |
| AboutUsGallery.CollapseKeepsWords | src/components/AboutUsGallery.tsx:76 | the collapse has the same words as its input, so no word is split or joined |
| AboutUsGallery.AltTextShape | src/components/AboutUsGallery.tsx:72-78 | alt text has no "-" or "_", does not start or end with white space, and has no two adjacent white-space characters |
| AboutUsGallery.CollapseKeepsSingleSpaces | src/components/AboutUsGallery.tsx:76 | text already without adjacent white space is unchanged |
| AboutUsGallery.TrimKeepsTrimmed | src/components/AboutUsGallery.tsx:77 | text without white space at either end is unchanged by `trim` |
| AboutUsGallery.AltTextExampleResize | src/components/AboutUsGallery.tsx:72-78 | "1-resize.webp" gives "1 resize" |
| AboutUsGallery.AltTextExampleImg | src/components/AboutUsGallery.tsx:72-78 | "IMG-0778-1630x860-1.webp" (an image name listed at line 48) gives "IMG 0778 1630x860 1" |
| AboutUsGallery.AltTextExampleDigits | src/components/AboutUsGallery.tsx:72-78 | "124214125.webp" (an image name listed at line 46) gives "124214125": only the extension goes |
| AboutUsGallery.SplitPoint | src/components/AboutUsGallery.tsx:52 | `Math.ceil(n / 2)`: twice the split point is n or n + 1 |
| AboutUsGallery.Rows | src/components/AboutUsGallery.tsx:82 | the two rows together are the images in order, and the first is as long as the second or one longer |
| ProjectCarousel.JsRem | src/components/ProjectCarousel.tsx:27 | JavaScript's `%`: the dividend minus a multiple of the divisor, with the sign of the dividend and a magnitude below the divisor |
| ProjectCarousel.JsRemUnique | src/components/ProjectCarousel.tsx:27 | those three conditions have exactly one solution, so they define the truncating remainder |
| ProjectCarousel.GoToIndex | src/components/ProjectCarousel.tsx:26-29 | every index from -n up lands in [0, n), and an index already in range is kept |
| ProjectCarousel.NextIndex | src/components/ProjectCarousel.tsx:83 | "next" moves one forward and wraps from the last to the first |
| ProjectCarousel.PrevIndex | src/components/ProjectCarousel.tsx:75 | "previous" moves one back and wraps from the first to the last |
| ProjectCarousel.NextPrevRoundTrip | src/components/ProjectCarousel.tsx:75-83 | next then previous, and previous then next, return to the same project |
| ProjectCarousel.ExactlyOneDotPressed | src/components/ProjectCarousel.tsx:101 | exactly one dot, the current one, is pressed |
| ProjectCarousel.Carousel.constructor | src/components/ProjectCarousel.tsx:24 | the carousel starts at the first project |
| ProjectCarousel.Carousel.GoTo | src/components/ProjectCarousel.tsx:26-29 | `current` becomes the wrapped index |
| ProjectCarousel.Carousel.Prev | src/components/ProjectCarousel.tsx:75 | `current` moves back one, wrapping, and stays in range |
| ProjectCarousel.Carousel.Next | src/components/ProjectCarousel.tsx:83 | `current` moves forward one, wrapping, and stays in range |
| ProjectCarousel.Carousel.Select | src/components/ProjectCarousel.tsx:95 | a dot makes its own project current |
| BlogListing.OfKind | src/components/blog/BlogListing.tsx:36 | the filter keeps only items of the chosen type |
| BlogListing.OfKindAppend | src/components/blog/BlogListing.tsx:36 | filtering distributes over concatenation, so order is kept |
| BlogListing.OfKindSingle | src/components/blog/BlogListing.tsx:36 | a single item is kept exactly when it has the chosen type |
| BlogListing.FilteredItemsContents | src/components/blog/BlogListing.tsx:34-37 | "all" shows every item as given; a type filter shows exactly the items of that type, each as often as it occurs |
| BlogListing.FilteredLengthsSum | src/components/blog/BlogListing.tsx:34-37 | the blog and study views together hold every item |
| BlogListing.Href | src/components/blog/BlogListing.tsx:64 | a blog item links to "/blog/slug", a study to "/studies/slug" |
| BlogListing.KeyAndHrefInjective | src/components/blog/BlogListing.tsx:64-71 | keys and links are equal exactly when type and slug are |
| BlogListing.LabelsFollowType | src/components/blog/BlogListing.tsx:94-103 | badge and call to action depend on the type alone, and the badge is "Blog" or "Studija" |
| BlogListing.Listing.constructor | src/components/blog/BlogListing.tsx:32 | the listing starts on "all" and shows every item |
| BlogListing.Listing.SetFilter | src/components/blog/BlogListing.tsx:43-48 | the chosen filter becomes active and the visible items are those it selects |
| BlogPage.Insert | src/app/blog/page.tsx:12-14 | insertion adds exactly the one item |
| BlogPage.InsertSorted | src/app/blog/page.tsx:12-14 | inserting into a newest-first list keeps it newest first |
| BlogPage.InsertOnDate | src/app/blog/page.tsx:12-14 | an inserted item goes before the items of its own date |
| BlogPage.SortByDateDesc | src/app/blog/page.tsx:12-14 | the sort is a permutation of its input |
| BlogPage.SortedResult | src/app/blog/page.tsx:12-14 | the sort puts newer dates first |
| BlogPage.SortStable | src/app/blog/page.tsx:12-14 | items of the same date keep their input order, as in JavaScript's stable sort |
| BlogPage.OnDateAppend | src/app/blog/page.tsx:12 | the items of one date in a concatenation are those of each part, in order |
| BlogPage.AllItemsProperties | src/app/blog/page.tsx:12-14 | `allItems` holds every post and study once, newest first, and on each date the posts come before the studies in their own order |
| BlogPage.OgImageOfNewest | src/app/blog/page.tsx:16 | the Open Graph image is the image of an item with the newest date, or the default image under the site URL when there are no items |
| ContactRoute.ValidateAcceptsIff | src/app/api/contact/route.ts:6-23 | the request schema accepts exactly an object with string `name` of UTF-16 `length` ≥ 2, an email-shaped string `email`, `phone` absent or a string, and string `message` of `length` ≥ 10 |
| ContactRoute.InvalidIssues | src/app/api/contact/route.ts:35 | a rejected object reports issues for exactly the failing fields, each with at least one message |
| ContactRoute.FieldMessages | src/app/api/contact/route.ts:6-23 | a missing field gives its `required_error`, a value that is not a string gives zod's type message, and otherwise the field's check message |
| ContactRoute.NotJsonIsUnexpected | src/app/api/contact/route.ts:62-70 | a body that does not parse (read at line 27) gets 500 with the generic message and no insert |
| ContactRoute.InvalidIsBadRequest | src/app/api/contact/route.ts:30-39 | a payload the schema rejects gets 400 with the field issues, and no insert |
| ContactRoute.InsertOnlyAfterValidation | src/app/api/contact/route.ts:41-48 | an insert is attempted exactly when the payload is valid and Supabase is configured; the row is the four fields, with a missing phone stored as null |
| ContactRoute.UnconfiguredIsUnexpected | src/lib/supabase.ts:6-11 | without both Supabase variables a valid request gets the generic 500, and nothing is inserted |
| ContactRoute.InsertOutcomeDecides | src/app/api/contact/route.ts:50-70 | a successful insert gives 200 `{ok:true}`, a reported error gives 502, and a throw gives 500 |
| ContactRoute.UnknownKeysIgnored | src/app/api/contact/route.ts:6-23 | extra keys, the `website` honeypot among them, do not change the answer or the row |
| ContactRoute.ResponseShapes | src/app/api/contact/route.ts:25-72 | the status is one of 200, 400, 500 and 502; `ok` holds only with 200; every failure carries one of three fixed messages; issues appear only with 400 |
| ContactForm.EmptyValues | src/components/ContactForm.tsx:44-50 | the initial values hold every field, each "" |
| ContactForm.FieldIssuesOfField | src/components/ContactForm.tsx:12-31 | a field has no issues exactly when it is within its bounds, and each issue names its own field |
| ContactForm.FormIssuesEmptyIff | src/components/ContactForm.tsx:12-31 | the form schema, applied at line 83, passes exactly when name has a UTF-16 `length` of 2–120, email is email-shaped and at most 160 units, phone is at most 60, and message is 10–1500 |
| ContactForm.SingleEmojiNameIsLongEnough | src/components/ContactForm.tsx:15 | a name made of one emoji, a single character, has `length` 2 and passes the name's `min(2)` |
| ContactForm.IssueFields | src/components/ContactForm.tsx:83-89 | the issues concern exactly the fields that are out of bounds |
| ContactForm.FieldErrors | src/components/ContactForm.tsx:85-89 | the error map has an entry for exactly the fields that have an issue |
| ContactForm.FieldErrorsLastWins | src/components/ContactForm.tsx:86-89 | each field's entry is the message of its last issue |
| ContactForm.CollectFieldErrors | src/components/ContactForm.tsx:85-89 | the loop builds exactly the error map of the issue list |
| ContactForm.HoneypotIff | src/components/ContactForm.tsx:78 | the honeypot trips exactly when `website` holds a character that is not white space |
| ContactForm.SubmitEventsShape | src/components/ContactForm.tsx:73-132 | a submission first reports ("idle", null); "saving" is reported exactly when the request is sent; the last report is "error" or "success" with a non-empty message; success only for an ok response |
| ContactForm.Form.constructor | src/components/ContactForm.tsx:44-57 | the form starts with empty values, no errors, "idle" and no message |
| ContactForm.Form.UpdateStatus | src/components/ContactForm.tsx:59-66 | status and message are set, and the pair is passed on to `onStatusChange` |
| ContactForm.Form.HandleChange | src/components/ContactForm.tsx:68-71 | the field's value is replaced and its error cleared; nothing else changes |
| ContactForm.Form.ValidateAndSend | src/components/ContactForm.tsx:83-131 | past the honeypot: on a schema failure reports the error status, sets the field errors and sends nothing; otherwise reports saving, sends the values and settles on the outcome |
| ContactForm.SubmitDisabledOnlyWhileSending | src/components/ContactForm.tsx:275 | the submit button (disabled while the status is "saving") is disabled only between the "saving" report of a submission that sends and the report that settles it, never after the last report |
| ContactForm.Form.HandleSubmit | src/components/ContactForm.tsx:73-132 | leaves the submit button enabled; reports the submission's status changes; sends the payload exactly when the honeypot and the schema pass; sets the field errors on a schema failure; empties the values only after an ok response |
| ContactForm.Form.Settle | src/components/ContactForm.tsx:110-131 | after the request the one last status change is the error carrying the endpoint's message or the generic failure text, the thanks message, or the network-error text when `fetch` throws; the values are emptied only after an ok response and the field errors stay as they were |
| ContactPanel.NextToast | src/components/contact/ContactPanel.tsx:29-39 | "success" or "error" with a non-empty message replaces the toast; anything else keeps it |
| ContactPanel.ToastAfterAppend | src/components/contact/ContactPanel.tsx:29-39 | status changes are applied one after the other |
| ContactPanel.ToastAfterSubmit | src/components/contact/ContactPanel.tsx:29-39 | after a submission the toast shows its last status change, and it is a success toast exactly when the request succeeded |
| ContactPanel.Panel.constructor | src/components/contact/ContactPanel.tsx:21 | no toast at first |
| ContactPanel.Panel.HandleStatusChange | src/components/contact/ContactPanel.tsx:29-39 | the toast becomes the one `NextToast` gives |
| ContactPanel.Panel.TimerFires | src/components/contact/ContactPanel.tsx:23-27 | the pending timeout hides the toast |
| ContactPanel.Panel.Submit | src/components/contact/ContactPanel.tsx:29-39 | a form submission leaves the toast of its last status change, so a toast is always shown afterwards |
| ContactPipeline.FormAcceptedIsServerAccepted | src/components/ContactForm.tsx:101-107 | what the form sends, the endpoint accepts; the phone arrives as a string, so an empty phone is stored as "" and not null |
| ContactPipeline.ServerAcceptsWhatFormRefuses | src/app/api/contact/route.ts:6-23 | the endpoint has no upper bounds: a name of `length` 121 is refused by the form and accepted by the endpoint |
| ContactPipeline.SettledBySubmission | src/components/ContactForm.tsx:110-124 | for a valid form the final report is thanks after an insert, the endpoint's insert-failure message after a reported error, and its generic message otherwise |
| ContactPipeline.SuccessMeansStored | src/components/ContactForm.tsx:110-124 | the form reports success exactly when the row was inserted |
| Navigation.PathHashShape | src/components/Navbar.tsx:51 | path and hash hold no "#", and without a "#" the path is the whole href |
| Navigation.PathHashOfJoined | src/components/Navbar.tsx:51 | "path#hash" without further "#" splits into exactly that path and hash |
| Navigation.SecondHashDropsTail | src/components/MobileMenu.tsx:46 | anything after a second "#" is dropped |
| Navigation.ResolvedHref | src/components/Navbar.tsx:233-234 | off the home page "#x" becomes "/#x"; every other href is unchanged |
| Navigation.Navigations | src/components/Navbar.tsx:40-71 | the scroll and push effects of a click, in order |
| MobileMenu.IsHomeIff | src/components/MobileMenu.tsx:29-30 | home exactly when the pathname passed in, or when none is passed the router's, is "/" |
| MobileMenu.EmptyHrefStaysOpen | src/components/MobileMenu.tsx:33 | an empty href has no effect and the menu stays open |
| MobileMenu.ClosesOnceLast | src/components/MobileMenu.tsx:32-61 | every non-empty href closes the menu exactly once, as the last effect, after at most one scroll or push |
| MobileMenu.SectionLink | src/components/MobileMenu.tsx:36-44 | "#x" scrolls on the home page and otherwise pushes "/#x", the href the link renders, then closes |
| MobileMenu.PathWithHash | src/components/MobileMenu.tsx:46-55 | "path#hash" scrolls to "#hash" on the current page and otherwise pushes "path#hash", then closes |
| MobileMenu.PlainPath | src/components/MobileMenu.tsx:57-60 | a plain path is pushed only when it differs from the pathname; the menu closes either way |
| Navbar.EmptyHrefInert | src/components/Navbar.tsx:42 | an empty href does nothing: no scroll, no push, no `onSelect` |
| Navbar.SelectsOnce | src/components/Navbar.tsx:40-71 | every non-empty href calls `onSelect` exactly once and scrolls or pushes at most once |
| Navbar.SectionLink | src/components/Navbar.tsx:44-49 | "#x" scrolls to "#x" and selects, without navigating |
| Navbar.PathWithHash | src/components/Navbar.tsx:51-62 | "path#hash" scrolls to "#hash" on the same page, and otherwise selects and then pushes "path#hash" |
| Navbar.PlainPath | src/components/Navbar.tsx:64-68 | a path without a hash, or with an empty one, is pushed only when it differs from the pathname; `onSelect` runs either way |
| Navbar.NavLinksAreSectionAnchors | src/components/Navbar.tsx:17-26 | every navigation link is "#name" with a non-empty name and no further "#" |
| Navbar.NavLinkHrefsDistinct | src/components/Navbar.tsx:17-26 | no two navigation links share an href |
| Navbar.AtMostOneActive | src/components/Navbar.tsx:232 | a link is active when `activeSection` is its href, so at most one navigation link is active at a time |
| Navbar.DesktopAndMobileAgree | src/components/Navbar.tsx:233-238 | the desktop link gets `resolvedHref` and the mobile link the raw href (src/components/MobileMenu.tsx:106), yet both scroll or push to the same place |
| Navbar.OffHomeSectionPushes | src/components/Navbar.tsx:233-238 | off the home page a section link selects and then pushes "/#name" |
| Navbar.MostVisible | src/components/Navbar.tsx:126-132 | the observer's pick: none exactly when no entry intersects, otherwise an intersecting entry of greatest ratio with no earlier one of equal ratio |
| Navbar.MostVisibleUnique | src/components/Navbar.tsx:127-131 | that pick is determined uniquely, as the stable sort's first element is |
| Navbar.ForcesBlogSectionIff | src/components/Navbar.tsx:166-170 | the blog link is made active exactly on paths starting with "/blog" or "/studies"; the home-page guard adds nothing |
| Navbar.Nav.constructor | src/components/Navbar.tsx:89-91 | the navbar starts not scrolled, menu closed, "#pocetak" active |
| Navbar.Nav.LogoHref | src/components/Navbar.tsx:207 | the logo's href is the resolved href of "#pocetak" |
| Navbar.Nav.ConsultationHref | src/components/Navbar.tsx:265 | the consultation button's href is the resolved href of "#kontakt" |
| Navbar.Nav.OnScroll | src/components/Navbar.tsx:113 | `scrolled` holds exactly when scrollY > 12; nothing else changes |
| Navbar.Nav.OnIntersect | src/components/Navbar.tsx:126-132 | the most visible section becomes active; with no intersecting entry nothing changes |
| Navbar.Nav.OnPathname | src/components/Navbar.tsx:166-170 | on a blog or studies path the active section becomes "#blog"; otherwise it is kept |
| Navbar.Nav.ClickLink | src/components/Navbar.tsx:231-241 | the click is dispatched on `resolvedHref`, and selecting makes the raw href the active section, so the link is then marked active |
| Navbar.Nav.SetMobileOpen | src/components/Navbar.tsx:287 | the menu's `onToggle`, like the menu button at line 275, sets `mobileOpen` |
| Navbar.Nav.ClickMobileLink | src/components/Navbar.tsx:284-290 | the mobile menu works with the navbar's pathname, and any non-empty link closes it |
| BackLink.AnyIncludedIff | src/components/BackLink.tsx:28 | `some(includes)` holds exactly when some path occurs in the referrer |
| BackLink.ReferrerMatchesIff | src/components/BackLink.tsx:28 | the referrer matches exactly when it is non-empty and contains one of the paths |
| BackLink.DefaultRule | src/components/BackLink.tsx:28 | with the default paths (line 19) the referrer must contain "/blog" |
| BackLink.EmptyAndNoPaths | src/components/BackLink.tsx:28 | an empty path matches every non-empty referrer, and an empty list matches none |
| BackLink.Link.constructor | src/components/BackLink.tsx:15-22 | `canGoBack` starts false, and the match paths default to ["/blog"] |
| BackLink.Link.RunEffect | src/components/BackLink.tsx:24-31 | a matching referrer sets `canGoBack`, which is never cleared |
| BackLink.Link.Click | src/components/BackLink.tsx:33-39 | a click goes back when `canGoBack` holds and otherwise pushes the fallback, exactly one of the two |

## Left out

- Rendering, styling, animation, the SEO metadata builders and the content
  data (posts, studies, project lists) are not modelled.
- Rate limiting, email dispatch and a server-side honeypot check are not
  modelled, because the code has none of them.
- The email grammar, Supabase's client and network, and `fetch` are
  parameters, not models:
  - `isEmail` is uninterpreted;
  - the insert is one of three outcomes;
  - a response is its `ok` flag and its JSON `message`; a non-ok response
    whose body is JSON `null` makes `errorData.message` throw inside the
    `try`, so it is the `FetchThrew` outcome;
  - a response body that cannot be read as JSON counts as one without a
    message.
- zod is modelled only as far as these schemas use it: ordered issue lists,
  `flatten().fieldErrors`, and the form phone field's union, where the string
  branch's issue is the one reported. Fields are checked in schema order; the
  order of keys in `Object.entries` is taken to be insertion order.
- JsString.Trim: its own contract states only the two ends of the result;
  that `trim` removes white space at the ends and nothing else is the lemma
  `JsString.TrimRemovesOnlyEnds`, kept out of the function so that proofs
  mentioning `trim` do not carry it.
- ContactForm.Form.HandleSubmit: it runs to completion as one step, so no
  change of values can come between validation and the answer of `fetch`.
  React's batching of state updates is not modelled either.
- ContactForm.Form.HandleChange: setting a field's error to `undefined` is
  modelled as removing the entry, which the form renders the same way.
- ContactPanel.Panel.TimerFires: time is abstract. That every new toast
  restarts a 4200 ms timeout (the effect's cleanup) is in the comments, not in
  the contracts.
- Navbar.Nav: the DOM parts are left out: the scroll listener and observer
  wiring, the `--nav-height` variable, body-overflow locking and
  `scrollToHash`'s offset arithmetic. `router.push` is an effect the model
  returns, and the page change it causes arrives later through
  `OnPathname`.
- Navbar.SelectsOnce, MobileMenu.ClosesOnceLast: the model assumes
  `scrollToHash` (src/lib/scrollToHash.ts:4) returns. `document.querySelector`
  throws for a hash that is not a valid selector, such as "#" or "#1"; the
  click handler then stops after `preventDefault`, so `onSelect` does not run
  and the mobile menu stays open. Every href in the site's own navigation
  list is a valid one (`Navbar.NavLinksAreSectionAnchors`), but the lemmas
  speak of every href.
- The `console.error` logging in the endpoint (src/app/api/contact/route.ts:51
  and 63) and in the form (src/components/ContactForm.tsx:126) is output
  only and is not modelled.
- Navbar.MostVisible: it is specified by the element a stable descending sort
  puts first. The sort is not modelled, and ratios are exact reals rather than
  floating point.
- BackLink.Link.RunEffect: the effect's dependency key (the lower-cased,
  "|"-joined paths) decides only when the effect re-runs. That is not
  modelled; each run is a call.
- ProjectCarousel.Carousel.GoTo: it requires at least one project; with none,
  the source's `%` gives NaN and its render fails.
- The default site URL of the SEO configuration ("https://www.vodenabasta.rs")
  differs from the canonical-link default ("https://vodenabasta.rs"). Only the
  latter is modelled.
