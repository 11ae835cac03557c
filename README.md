# superdocs: carousel, tab bar and template list/create, modelled in Dafny

This project models the three pieces of logic in the superdocs content-management
dashboard that can be stated exactly:

- **The image preview carousel** (`ImagePreviewModal`). A class `ImagePreview.Carousel`
  holds the component's props (`visible`, `initialIndex`), its state (`current`), the
  strip's scroll offset (`scrollLeft`) and the page scroll lock (`locked`, meaning that
  `document.body.style.overflow` was set to `'hidden'`). It has methods for the open
  effect, the lock effect, the keydown listener, `handleScroll`, `goTo`, the clicks and
  unmounting. The geometry is a set of pure functions with lemmas: clamping, `Math.round`
  on integer offsets, and the nearest page. So is the drawn view (nothing, or the overlay
  with its indicator and arrows).
- **The bottom tab bar** (`MobileLayout`). The ordered tab table, the `tabs.find`
  matching rule with its `'/dashboard'` fallback, and the links drawn with `isActive`.
- **The `/api/templates` collection route.** `POST`: the body's properties read under
  JavaScript truthiness, the missing-title refusal and the normalised insert record.
  `GET`: `URLSearchParams.get`, the `parseInt` defaults, the inclusive row range and the
  conditional filters. The query is given a reference meaning over a sequence of stored
  rows: filter, order by `created_at` newest first, window, count.

`Decimal` covers two conversions: integer printing as a template literal does it (the
page indicator), and integer reading as `parseInt` does it (`limit`, `offset`). `parseInt`
is proved to read back every integer that is printed. `Wrappers` holds `Option`.

Modelling choices:

- One integer page width `W` (`pageWidth`) stands for both `window.innerWidth` and the
  strip's `clientWidth`. `W = 0` is allowed: it is the case where `handleScroll` returns
  early.
- `Math.round(s / W)` is `(2*s + W) / (2*W)`. Dafny's `/` floors, so this is
  `floor(s/W + 1/2)` for every integer `s`, negative ones too.
- `onClose` belongs to the parent. The model takes the parent to answer it by passing
  `visible = false` (methods `Close`, and `KeyDown(Escape)` / `Click` calling it).
- The `images` prop is fixed for the life of a `Carousel` object.
- The scroll target set by `goTo` is taken as the offset the smooth scroll ends at.
  `Drag` is a user gesture. `OnScroll` is the scroll event that follows either one.
- `created_at` and `updated_at` are modelled as integer instants. The store orders the
  column chronologically.
- Behaviours of the code that the model keeps as written:
  - Opening does not clamp `initialIndex` (image-preview-modal.tsx:29). An out-of-range
    index is shown as given, e.g. indicator `6 / 3`, until a scroll event reads the
    strip. `PreviewScenario` shows this case.
  - The bar draws five links. The mobile end-to-end test expects four (e2e/mobile.spec.ts:84).
  - Opening with an empty image list still takes the page scroll lock, because the lock
    effect depends only on `visible`. The keydown listener is also registered, so Escape
    still closes.

## Model

| member | source | states |
|---|---|---|
| `ImagePreview.ClampIndex` | components/image-preview-modal.tsx:57-61 | the result is a page of the strip (0 for an empty one); an in-range index is kept; below 0 gives 0; past the end gives the last page |
| `ImagePreview.RoundDiv` | components/image-preview-modal.tsx:56 | the result `r` is `Math.round(s/w)`: `r - 1/2 <= s/w < r + 1/2`, i.e. halves round up |
| `ImagePreview.PageAt` | components/image-preview-modal.tsx:53-58 | the page the scroll handler derives is always a page of the strip |
| `ImagePreview.RoundDivOfPageOffset` | components/image-preview-modal.tsx:56 | rounding the exact offset of page `k` gives `k` |
| `ImagePreview.PageAtClampedOffset` | components/image-preview-modal.tsx:53-63 | round trip: the offset `goTo(i)` scrolls to is read back by the scroll handler as `clamp(i, 0, len-1)` |
| `ImagePreview.PageAtIsNearest` | components/image-preview-modal.tsx:53-58 | no page of the strip starts closer to the scroll offset than the page the handler picks |
| `ImagePreview.ClampIdempotent` | components/image-preview-modal.tsx:57-61 | clamping an index already clamped changes nothing |
| `ImagePreview.NoWraparound` | components/image-preview-modal.tsx:38-39 | ArrowRight from the last page and ArrowLeft from page 0 target the same page: no wraparound |
| `ImagePreview.ArrowShownIffItMoves` | components/image-preview-modal.tsx:157-185 | on a pointer device with several images and `current` in range, each arrow is drawn iff its step moves to another page |
| `ImagePreview.IndicatorText` | components/image-preview-modal.tsx:89 | the indicator is empty iff there is at most one image |
| `ImagePreview.IndicatorDetermines` | components/image-preview-modal.tsx:89 | the indicator `current+1 / len` determines both `current` and `len` |
| `ImagePreview.PrevArrowShown` | components/image-preview-modal.tsx:157-159 | a drawn previous arrow always steps to a lower page |
| `ImagePreview.NextArrowShown` | components/image-preview-modal.tsx:157-183 | a drawn next arrow always steps to a higher page |
| `ImagePreview.Render` | components/image-preview-modal.tsx:65-208 | nothing is drawn iff not visible or no images; otherwise one slot per image and an empty indicator iff one image; the previous arrow is drawn iff `!isMobile && len > 1 && current > 0`, the next arrow iff `!isMobile && len > 1 && current < len - 1` |
| `ImagePreview.Carousel.ViewNow` | components/image-preview-modal.tsx:65 | the component draws nothing exactly when the strip is not on the page |
| `ImagePreview.Carousel.constructor` | components/image-preview-modal.tsx:17-51 | mounting sets `current := initialIndex`, scrolls to `initialIndex * W` when the strip exists, and locks the page iff visible |
| `ImagePreview.Carousel.SetProps` | components/image-preview-modal.tsx:23-51 | a change of `visible` or `initialIndex` that leaves the strip shown sets `current := initialIndex` unclamped and the offset to `initialIndex * W`; the lock follows `visible`; otherwise `current` and the offset are kept |
| `ImagePreview.Carousel.Open` | components/image-preview-modal.tsx:23-31 | opening, or a new index while open, sets `current` to the index exactly and scrolls there; the page is locked; with no images `current` is left alone |
| `ImagePreview.Carousel.Close` | components/image-preview-modal.tsx:46-51 | closing hides the carousel, restores the page scroll and keeps `current` |
| `ImagePreview.Carousel.Unmount` | components/image-preview-modal.tsx:46-51 | unmounting always releases the page scroll lock |
| `ImagePreview.Carousel.OnScroll` | components/image-preview-modal.tsx:53-58 | a scroll event sets `current` to the clamped rounded page of the offset, always in range; with no strip or zero width nothing changes |
| `ImagePreview.Carousel.Drag` | components/image-preview-modal.tsx:109-122 | a user gesture moves the strip's offset only while the strip is shown |
| `ImagePreview.Carousel.GoTo` | components/image-preview-modal.tsx:60-63 | `goTo` never writes `current`; it scrolls to the clamped page's offset, always within `[0, (len-1)*W]` |
| `ImagePreview.Carousel.KeyDown` | components/image-preview-modal.tsx:33-43 | while visible, Escape closes and ArrowLeft/ArrowRight scroll to the clamped neighbouring page; other keys, and any key while hidden, change nothing; `current` and `initialIndex` are never written |
| `ImagePreview.Carousel.Click` | components/image-preview-modal.tsx:91-185 | the close button and an image's slot close; a click on the image itself changes nothing; an arrow steps to the clamped neighbouring page only while it is drawn; `current` and `initialIndex` are never written |
| `Decimal.IntToString` | components/image-preview-modal.tsx:89 | an integer prints as a non-empty run of digits with an optional leading minus |
| `Decimal.ParseInt` | app/api/templates/route.ts:14-15 | `parseInt` yields a number iff, after an optional sign, the text starts with a digit; NaN otherwise |
| `Decimal.IntRoundTrip` | app/api/templates/route.ts:14-15 | `parseInt` reads back exactly the integer that a template literal prints |
| `Decimal.IntToStringInjective` | components/image-preview-modal.tsx:89 | different integers print differently |
| `MobileLayout.Matches` | components/layouts/mobile-layout.tsx:25 | a matching key is always a prefix of the pathname, and the dashboard key matches only its exact path |
| `MobileLayout.FindTab` | components/layouts/mobile-layout.tsx:24-25 | `tabs.find`: the result is the first matching tab in table order, and none means no tab matches |
| `MobileLayout.ActiveKey` | components/layouts/mobile-layout.tsx:24-26 | the active key is always one of the five tab keys |
| `MobileLayout.KeysDistinct` | components/layouts/mobile-layout.tsx:13-19 | the table's keys are pairwise distinct |
| `MobileLayout.ExactPathSelectsTab` | components/layouts/mobile-layout.tsx:24-25 | a pathname equal to a tab key selects that key |
| `MobileLayout.PrefixSelectsTab` | components/layouts/mobile-layout.tsx:25 | a pathname starting with a non-dashboard key selects it, with no `/` boundary (`/articles/42` and `/articlesX` both give `/articles`) |
| `MobileLayout.DashboardOnlyExact` | components/layouts/mobile-layout.tsx:25 | the dashboard tab matches its own path only, never by prefix |
| `MobileLayout.DashboardIsFallback` | components/layouts/mobile-layout.tsx:24-26 | the active key is `/dashboard` iff no other tab matches |
| `MobileLayout.UnmatchedExamples` | components/layouts/mobile-layout.tsx:26 | `/login`, `/` and `/dashboard/stats` resolve to `/dashboard` |
| `MobileLayout.NavLinks` | components/layouts/mobile-layout.tsx:48-53 | one link per tab in table order, each with that tab's key and label, active iff its key is the active key |
| `MobileLayout.OneActiveLink` | components/layouts/mobile-layout.tsx:48-53 | five links are drawn, one per tab in table order, and exactly one is active |
| `TemplatesRoute.Truthy` | app/api/templates/route.ts:55-68 | the falsy values are exactly `undefined`, `null`, `false`, `0` and `""` |
| `TemplatesRoute.Or` | app/api/templates/route.ts:65-68 | JavaScript's or-default: a truthy `a` is passed through, a falsy one is replaced by `b` |
| `TemplatesRoute.Property` | app/api/templates/route.ts:53 | destructuring reads a present property of an object body as its value, and `undefined` otherwise |
| `TemplatesRoute.PrepareCreate` | app/api/templates/route.ts:52-69 | a null body throws; a falsy title is refused before any store call; otherwise the title passes unchanged and the other fields are normalised by the or-default |
| `TemplatesRoute.PreparedFieldsAreNormal` | app/api/templates/route.ts:65-68 | each optional text field of the insert is either `null` or the truthy value given; tags are `[]` or the value given |
| `TemplatesRoute.TitleOnlyBody` | app/api/templates/route.ts:62-69 | a body with only a non-empty title gives `null` description, content and category and `[]` tags |
| `TemplatesRoute.EmptyStringsBecomeNull` | app/api/templates/route.ts:65-68 | empty-string description, content and category become `null`, and null tags become `[]` |
| `TemplatesRoute.FalsyTitleRefused` | app/api/templates/route.ts:55-57 | an absent, null, empty, `0` or `false` title is refused whatever else the body holds |
| `TemplatesRoute.PrepareCreateIdempotent` | app/api/templates/route.ts:63-69 | normalisation is idempotent: a prepared record sent back as a body is prepared unchanged |
| `TemplatesRoute.GetParam` | app/api/templates/route.ts:12-15 | `searchParams.get` gives the first value for the name, and null iff the name is absent |
| `TemplatesRoute.ParamOr` | app/api/templates/route.ts:14-15 | an absent or empty parameter takes the default; otherwise its value is kept |
| `TemplatesRoute.NonEmpty` | app/api/templates/route.ts:24-29 | a filter parameter is used iff it is present and non-empty |
| `TemplatesRoute.PrepareList` | app/api/templates/route.ts:11-29 | NaN iff `limit` or `offset` cannot be read; otherwise `limit` and `offset` are the values `parseInt` reads from the defaulted parameters, the range is `[offset, offset+limit-1]`, and each filter is there iff its parameter is non-empty |
| `TemplatesRoute.LimitDefault` | app/api/templates/route.ts:14 | an absent or empty `limit` is read as 100 |
| `TemplatesRoute.OffsetDefault` | app/api/templates/route.ts:15 | an absent or empty `offset` is read as 0 |
| `TemplatesRoute.IntegerParamRead` | app/api/templates/route.ts:14-15 | a parameter given as an integer's decimal spelling is read as that integer |
| `TemplatesRoute.ListPaging` | app/api/templates/route.ts:14-22 | each paging parameter is defaulted or read on its own, in any order, and the range follows from both |
| `TemplatesRoute.ListDefaults` | app/api/templates/route.ts:14-15 | with `limit` and `offset` absent or empty, the query asks for rows 0 to 99 |
| `TemplatesRoute.OffsetOnlyExample` | app/api/templates/route.ts:14-22 | `?offset=40` asks for 100 rows from row 40, i.e. rows 40 to 139 |
| `TemplatesRoute.ReorderedParamsExample` | app/api/templates/route.ts:14-22 | `?offset=5&limit=10` asks for rows 5 to 14 |
| `TemplatesRoute.Filter` | app/api/templates/route.ts:24-29 | a filter keeps only rows that pass, keeps every row that passes, and adds no row |
| `TemplatesRoute.ILikeContains` | app/api/templates/route.ts:28 | a null column never matches a search |
| `TemplatesRoute.SearchIgnoresCase` | app/api/templates/route.ts:28 | a search finds the same rows as its lower-case form |
| `TemplatesRoute.CategoryOk` | app/api/templates/route.ts:24-26 | a row with a null category never passes a category filter |
| `TemplatesRoute.SearchOk` | app/api/templates/route.ts:27-29 | with a null description, a row passes a search iff its title contains it, ignoring case |
| `TemplatesRoute.Selected` | app/api/templates/route.ts:24-29 | the selected rows are exactly the stored rows that pass both filters, with none added |
| `TemplatesRoute.InsertByDate` | app/api/templates/route.ts:21 | inserting into a newest-first sequence keeps it newest first and adds exactly that row |
| `TemplatesRoute.SortNewestFirst` | app/api/templates/route.ts:21 | `order('created_at', descending)` yields a newest-first permutation of its input |
| `TemplatesRoute.Window` | app/api/templates/route.ts:22 | `range(from, to)` returns the existing rows at positions `from` to `to` inclusive, in order, so at most `to - from + 1` of them |
| `TemplatesRoute.Total` | app/api/templates/route.ts:37 | the count defaulted to 0: a null count gives 0, otherwise the count |
| `TemplatesRoute.Respond` | app/api/templates/route.ts:35-40 | the response carries the rows, `limit` and `offset` as given, and `total` is the count, or 0 when the count is null |
| `TemplatesRoute.RunList` | app/api/templates/route.ts:18-40 | the response echoes `limit` and `offset` |
| `TemplatesRoute.TotalIgnoresPaging` | app/api/templates/route.ts:18-37 | `total` counts every selected row, whatever the range asked for |
| `TemplatesRoute.PageSize` | app/api/templates/route.ts:14-22 | the page holds `min(limit, total - offset)` rows, and none when `offset >= total` |
| `TemplatesRoute.PageRowsMatch` | app/api/templates/route.ts:24-29 | every returned row is stored, has the requested category, and contains the search in its title or description, ignoring case |
| `TemplatesRoute.PageNewestFirst` | app/api/templates/route.ts:21 | the page is ordered by `created_at`, newest first |
| `TemplatesRoute.FirstPageComplete` | app/api/templates/route.ts:18-29 | a first page large enough holds every selected row |

## Left out

- The store client, `withAuth`, `successResponse` and `errorResponse` are not part of this model. So are the status and envelope shape of the missing-title error, the 500 answer to a failed store call, and `console.error` logging.
- The get-by-id, update and delete handlers (app/api/templates/[id]/route.ts) are not part of this model.
- The store's assignment of `id` and timestamps on insert, and the record it returns, are external.
- `TemplatesRoute.Window`: the store's own answer to a negative offset or a non-positive limit is not modelled. The model clips the range to the rows that exist.
- `TemplatesRoute.PrepareList`: what the store does with a NaN range is not modelled (outcome `NotANumber`).
- `Decimal.ParseInt` models the base-10 reading of a sign and leading digits. `parseInt`'s skipping of leading whitespace and its `0x` hexadecimal prefix are not modelled.
- `TemplatesRoute.SortNewestFirst` fixes one order among rows with equal `created_at`. The store promises none.
- `TemplatesRoute.ILikeContains` folds ASCII letters only. `%` and `_` in the search text are matched literally, not as `ilike` wildcards. Commas or parentheses in the search text, which would change the `or` filter's syntax, are not modelled.
- `TemplatesRoute.PrepareList`: `parseInt` yields a double, so a `limit` or `offset` beyond 2^53 loses precision, and `offset + limit - 1` is a floating-point addition. The model reads and adds them as unbounded integers.
- `TemplatesRoute.Params` is the list of already-decoded name/value pairs. The percent- and `+`-decoding done by `URL` and `URLSearchParams` is not modelled.
- `TemplatesRoute.JsValue` numbers are integers. Fractional JSON numbers and `NaN` bodies are not modelled. A body that is not valid JSON is not modelled (it would be answered with 500).
- The browser clamps a scroll target to the strip's width (so `scrollTo(5 * W)` on three images stops at `2 * W`). The model keeps the requested target.
- Intermediate frames of a smooth scroll, `requestAnimationFrame` deferral, and React's effect scheduling and listener (un)registration mechanics are not modelled. Each effect is applied at once, in source order.
- `ImagePreview.Carousel` does not model a change of the `images` prop while mounted. That change would also leave the keydown listener holding a stale `goTo`.
- `useIsMobile` is an opaque input (`isMobile`). Styling, icons and padding are not modelled.
- Tab icons and styling are not modelled.
