# Storefront client rules, modelled in Dafny

This project models the rule-bearing core of a React storefront (a shoe
shop) as pure Dafny functions over strings and sequences, and proves what
those rules promise. The network is not modelled: every remote call is a
parameter of type `Remote.Response<T>` (`Ok(data)` or `Failed`), so each
operation becomes a pure transition that takes the call's outcome as input.

- `CardUtils` (`card_utils.dfy`) covers the card-input utilities.
  `FormatCardNumber` keeps the digits of the input, drops every digit after
  the sixteenth, and groups the rest 4-4-4-4 with single spaces.
  `DetectCardType` classifies the leading digits as Visa, Mastercard or
  Unknown. JavaScript's `parseInt` of a digit prefix is the natural value of
  that prefix. An empty prefix gives `NaN`, which fails every range test.
- `Cart` (`cart.dfy`) covers the cart mirror. This is the local list of
  cart lines that the cart context updates after each remote call: fetch,
  add (post, then re-fetch), remove (delete, then filter), update (put, then
  patch the quantity) and clear. Each operation returns the new list and
  whether it rethrows the remote error to its caller.
- `Checkout` (`checkout.dfy`) covers the checkout step counter. It models
  the initial step, the Continue and Back buttons, the progress indicator,
  the panel shown for each step and the primary button's label.
- `ProductDetail` (`product_detail.dfy`) covers the variant selection on the
  product page. It models the initial colour and size after loading, the
  selected-variant lookup, the distinct colour list, the disabled colour and
  size buttons, the add-to-cart `disabled` flag and the gallery image list.
- `Sequences` (`sequences.dfy`) holds the shared notions: subsequence, first
  index, and de-duplication in first-occurrence order (`[...new Set(xs)]`).
- `Remote` (`remote.dfy`) defines the outcome of a remote call and `Option`.
- `Arithmetic` (`arithmetic.dfy`) holds `Min`, the smaller of two integers,
  used to clamp `slice` indices and in the step-counter lemmas.

The code is narrower than a full checkout flow, and the model follows it:

- A failed `fetchCart` leaves the list as it was. It is not reset to an
  empty list.
- `updateQuantity` does not check that the requested quantity is at least 1.
  The local quantity becomes the one the server returns.
- The checkout page has no validation, no shipping persistence and no order
  submission. Continue and Back move the counter unconditionally, and
  Continue on the review step does nothing.
- The order totals on the checkout and cart pages are fixed text. No total or
  tax formula exists to model.

Some behaviours of the code are modelled as written.

- Loading a product whose variant list is empty keeps the previous colour,
  size and selected variant. The lookup effect only runs when the list is
  non-empty. `ProductDetail.LoadEmptyKeepsSelection` states this.
- `src/components/AddToCartButton.tsx` takes only `productId`. It ignores
  the `variantId` and `disabled` values that the product page computes for
  it. The model states what the page computes.

## Model

| member | source | states |
|---|---|---|
| CardUtils.Digits | src/utils/cardUtils.ts:5 | The stripped string holds only the characters '0'..'9'. It is a subsequence of the input, its length is the number of digits in the input, and a string of digits only comes back unchanged. |
| CardUtils.FormatCardNumber | src/utils/cardUtils.ts:3-23 | Characterises the result position by position. Position i is a space exactly when i % 5 == 4. Every other position holds input digit i - i/5. The length is n + (n-1)/4 for n = min(16, number of input digits), so there are at most 19 characters. Only digits and spaces appear, and no space leads or trails. Stripping the spaces gives back the first min(16, n) input digits in order. The result is empty iff the input has no digits. |
| CardUtils.FormatIsGrouped | src/utils/cardUtils.ts:8-22 | The unrolled four-`if` chain followed by `join(' ')` equals an independent reference grouping (blocks of four, the last block one to four long) applied to the first sixteen digits. |
| CardUtils.GroupedLayout | src/utils/cardUtils.ts:9-22 | For any string, the reference grouping has length n + (n-1)/4. It has a space at every position i with i % 5 == 4 and character i - i/5 of the string everywhere else. |
| CardUtils.DigitsOfGrouped | src/utils/cardUtils.ts:5-22 | Round trip: removing the non-digits from the grouping of a digit string gives that digit string back. |
| CardUtils.FormatIdempotent | src/utils/cardUtils.ts:3-23 | Formatting an already formatted value returns it unchanged. |
| CardUtils.FormatDropsExtraDigits | src/utils/cardUtils.ts:18-20 | Once a value holds sixteen digits, appending anything to it does not change the formatted result. |
| CardUtils.DetectCardType | src/utils/cardUtils.ts:25-42 | Visa iff the first digit is 4. Mastercard iff the first digit is not 4 and either the first two digits are 51-55 (read digit by digit) or there are at least four digits whose value is 2221-2720. A digit-free input is Unknown. |
| CardUtils.Classify | src/utils/cardUtils.ts:30-41 | The decision on the stripped digit string: Visa when it starts with 4, else Mastercard when the two-digit or four-digit prefix is in range, else Unknown. Characterised digit by digit by `MastercardPrefixes` and through `DetectCardType`. |
| CardUtils.MastercardPrefixes | src/utils/cardUtils.ts:35-37 | The `parseInt` range tests say the same thing digit by digit. The two-digit test holds iff there are two digits, '5' then '1'..'5'. The four-digit test needs four digits. A shorter or empty prefix never passes. |
| CardUtils.DetectIgnoresFormatting | src/utils/cardUtils.ts:27-37 | Formatting never changes the brand: the brand of the formatted value equals the brand of the raw input. |
| CardUtils.SampleVisa | src/utils/cardUtils.ts:30-32 | "4111111111111111" is Visa. |
| CardUtils.SampleMastercard | src/utils/cardUtils.ts:35-38 | "5500000000000004" is Mastercard. |
| CardUtils.SampleUnknown | src/utils/cardUtils.ts:35-41 | "1234567890123456" is Unknown. |
| CardUtils.SampleMastercardSecondRange | src/utils/cardUtils.ts:36-38 | A formatted "2221 0000" is Mastercard through the four-digit range, with its space ignored. |
| Cart.RemoveLines | src/lib/cartContext.tsx:63 | The filter keeps exactly the lines whose id differs from the removed one. The survivors form a subsequence of the old list (same order and contents), and the length drops by the number of matching lines. |
| Cart.SetQuantity | src/lib/cartContext.tsx:74-78 | The map keeps length and order. Lines with another id are untouched. Matching lines change only their quantity. |
| Cart.FetchCart | src/lib/cartContext.tsx:36-45 | On success the list becomes the server's list. On failure the list is kept, not emptied, and the error is swallowed. |
| Cart.AddToCart | src/lib/cartContext.tsx:47-57 | A failed post keeps the list and rethrows. A successful post takes the re-fetched list, or keeps the old list when the re-fetch fails, and does not throw. |
| Cart.RemoveFromCart | src/lib/cartContext.tsx:59-68 | A failed delete keeps the list and rethrows. A successful one does not rethrow and leaves exactly the filtered list: the lines with another id, in their order (`RemoveLines`). |
| Cart.UpdateQuantity | src/lib/cartContext.tsx:70-83 | A failed put keeps the list and rethrows. A successful one keeps length, ids, product ids and products. It sets the quantity of the matching lines to the server's answer and leaves all other quantities alone. |
| Cart.ClearCart | src/lib/cartContext.tsx:85-88 | The list is empty afterwards whatever it was, and nothing is thrown. |
| Cart.Initial | src/lib/cartContext.tsx:29-34 | The provider starts empty and fetches on mount. The list is the server's list, or empty if that fetch fails. |
| Cart.FailureKeepsItems | src/lib/cartContext.tsx:36-83 | For every operation whose remote call fails, the list is unchanged. The error reaches the caller exactly for add, remove and update, not for fetch. |
| Cart.ThrowsOnlyOnFailure | src/lib/cartContext.tsx:36-83 | No operation rethrows unless its remote call failed. |
| Cart.RemoveAbsent | src/lib/cartContext.tsx:63 | Removing an id that no line carries leaves the list unchanged. |
| Cart.RemoveIdempotent | src/lib/cartContext.tsx:63 | Removing the same id twice is the same as removing it once. |
| Cart.RemoveCommutes | src/lib/cartContext.tsx:63 | Removals of two ids give the same list in either order. |
| Cart.UpdateThenRemove | src/lib/cartContext.tsx:63-78 | Updating a line and then removing it equals removing it: the update touched nothing else. |
| Cart.UpdateCommutesWithRemove | src/lib/cartContext.tsx:63-78 | An update of one id and the removal of another id commute. |
| Cart.UpdateIgnoresRequest | src/lib/cartContext.tsx:73-78 | Two different requested quantities with the same server answer give the same list: the server's quantity is authoritative. |
| Cart.UpdateIdempotent | src/lib/cartContext.tsx:75-77 | Applying the same answered update twice equals applying it once. |
| Cart.TotalItemsAfter | src/lib/cartContext.tsx:90 | `totalItems` is the line count. A successful removal lowers it by the number of matching lines. An update keeps it. A clear makes it 0. A fetch or an add takes the server's line count. |
| Cart.TotalItemsIsNotUnits | src/lib/cartContext.tsx:90 | One line with quantity 2 gives `totalItems` 1 while the units sum to 2. |
| Cart.TotalItems | src/lib/cartContext.tsx:90 | `totalItems` is the number of lines. `TotalItemsAfter` gives its value after every successful operation, and `TotalItemsIsNotUnits` shows it is not the unit count. |
| Checkout.OnContinue | src/pages/Checkout.tsx:169-174 | Continue keeps a step in 1..3. It changes the step iff the step is below 3, and then to exactly step + 1. |
| Checkout.Press | src/pages/Checkout.tsx:162-174 | Continue is always available and moves as the Continue handler does. Back is unavailable exactly on step 1 and below, and otherwise moves to step - 1. |
| Checkout.PressKeepsValid | src/pages/Checkout.tsx:162-174 | Every available button keeps the step in 1..3. |
| Checkout.RunKeepsValid | src/pages/Checkout.tsx:162-175 | Any sequence of button presses that starts from a step in 1..3 ends on a step in 1..3. |
| Checkout.ContinuesClimb | src/pages/Checkout.tsx:169-174 | n presses of Continue from a valid step s end on min(s + n, 3). |
| Checkout.EveryStepReachable | src/pages/Checkout.tsx:5 | Starting from step 1, step - 1 presses of Continue reach any step in 1..3. |
| Checkout.BackUndoesContinue | src/pages/Checkout.tsx:162-174 | Below step 3, Continue then Back returns to the same step. Above step 1, Back then Continue does. |
| Checkout.ExactlyOnePanel | src/pages/Checkout.tsx:26-119 | Each step in 1..3 shows exactly one panel, different steps show different panels, and any other step shows none. |
| Checkout.ShownPanels | src/pages/Checkout.tsx:26-119 | The set of panels whose `step === k` guard holds. `ExactlyOnePanel` shows it is one panel per valid step and empty otherwise. |
| Checkout.IndicatorsArePrefix | src/pages/Checkout.tsx:11-21 | The filled indicators form a prefix. On a valid step, exactly `step` of them are filled. |
| Checkout.Indicators | src/pages/Checkout.tsx:11-21 | The three circles, each filled iff `step >= k`. `IndicatorsArePrefix` shows the filled ones form a prefix of length `step`. |
| Checkout.LabelAndButtons | src/pages/Checkout.tsx:162-176 | The button reads 'Place Order' iff the review panel is shown, iff Continue leaves the step unchanged. Back is shown iff the panel is not shipping. |
| Checkout.ButtonLabel | src/pages/Checkout.tsx:176 | The primary button reads 'Place Order' on step 3 and 'Continue' otherwise. `LabelAndButtons` ties the label to the review panel and the no-op Continue. |
| ProductDetail.FindIndex | src/pages/ProductDetail.tsx:79-81 | The search returns the first position whose colour and size both match, or nothing when no variant matches. |
| ProductDetail.FindVariant | src/pages/ProductDetail.tsx:79-82 | A found variant is in the list, has the requested colour and size, and is the variant at the first matching position. The result is null iff no variant matches. |
| ProductDetail.SyncSelected | src/pages/ProductDetail.tsx:77-84 | The effect changes only the selected variant. With no variants it changes nothing. With variants, the selected variant becomes the first variant with the selected colour and size, or null when none has them. |
| ProductDetail.Load | src/pages/ProductDetail.tsx:46-74 | Without a route id nothing changes. Otherwise loading ends, and the error flag is set iff either fetch failed. A failed product fetch changes only the flags. A failed variant fetch also stores the product, and nothing else. On success the variants are the fetched list and the selected variant agrees with the selection. |
| ProductDetail.LoadSelectsFirst | src/pages/ProductDetail.tsx:56-63 | A successful load of a non-empty variant list selects the first variant's colour and size and the first variant itself. Add to cart is then disabled iff that variant's quantity is 0. |
| ProductDetail.LoadEmptyKeepsSelection | src/pages/ProductDetail.tsx:60-63 | A successful load of an empty variant list keeps the previous colour, size and selected variant. |
| ProductDetail.FailedFirstLoad | src/pages/ProductDetail.tsx:64-67 | A failed first load shows the error, selects no variant and leaves add to cart disabled. |
| ProductDetail.SyncedSelection | src/pages/ProductDetail.tsx:77-84 | On a page whose selected variant is up to date and that has variants, the selected variant is one of the size options of the selected colour and has the selected size. None is selected iff no option has the selected size. |
| ProductDetail.TransitionsKeepSynced | src/pages/ProductDetail.tsx:77-84 | Loading, clicking a colour and clicking a size keep the selected variant equal to the lookup for the selected colour and size. |
| ProductDetail.OfColor | src/pages/ProductDetail.tsx:169-170 | The size options are exactly the variants of the selected colour, in their original order: a subsequence that holds each variant of that colour as many times as the list does, and no other. |
| ProductDetail.Colors | src/pages/ProductDetail.tsx:141 | The colour buttons list every colour of the variants and nothing else, each once, ordered by the first variant of that colour. |
| Sequences.Distinct | src/pages/ProductDetail.tsx:141 | `[...new Set(xs)]` has the same elements as xs, no duplicates, and orders them by first occurrence in xs. |
| ProductDetail.ClickColor | src/pages/ProductDetail.tsx:142-156 | Clicking a disabled colour (stock sum 0) changes nothing. Clicking an enabled one changes only the selected colour and the selected variant, which becomes the first variant with that colour and the kept size. |
| ProductDetail.ClickSize | src/pages/ProductDetail.tsx:169-175 | Clicking a disabled size (quantity 0) changes nothing. Clicking an enabled one changes only the selected size and the selected variant, which becomes the first variant with the selected colour and that size. |
| ProductDetail.ClickSizeSelects | src/pages/ProductDetail.tsx:174 | After clicking an enabled size of the selected colour, a variant with that colour and size is selected. |
| ProductDetail.ClickColorWithoutSize | src/pages/ProductDetail.tsx:156-200 | A colour with non-zero stock is one of the listed colours. Switching to it when it has no variant of the selected size leaves no variant selected, so add to cart is disabled. |
| ProductDetail.AddToCartDisabled | src/pages/ProductDetail.tsx:200 | "Add to cart" is disabled iff no variant is selected or the selected one has quantity 0. See `LoadSelectsFirst`, `FailedFirstLoad` and `ClickColorWithoutSize`. |
| ProductDetail.ColorDisabledIffSoldOut | src/pages/ProductDetail.tsx:142-144 | With non-negative stock, a colour is disabled iff every one of its variants has quantity 0. |
| ProductDetail.ColorDisabled | src/pages/ProductDetail.tsx:142-144 | A colour button is disabled iff the quantities of its variants sum to 0. `ColorDisabledIffSoldOut` shows this is "every variant sold out" when stock is non-negative. |
| ProductDetail.SizeDisabled | src/pages/ProductDetail.tsx:175 | A size button is disabled iff its variant has quantity 0. `ClickSize` changes nothing on a disabled size, and `ClickSizeSelects` selects a variant on an enabled one. |
| ProductDetail.ColorHasSizes | src/pages/ProductDetail.tsx:141-170 | Every listed colour has at least one size option. |
| ProductDetail.GalleryConcat | src/pages/ProductDetail.tsx:113-116 | The gallery is the concatenation of the variants' image lists in variant order. It splits along any split of the variants, and its length is the total number of images. |
| ProductDetail.Gallery | src/pages/ProductDetail.tsx:113-116 | The gallery lists every variant's images in variant order. `GalleryConcat` shows it splits along any split of the variants and has the total image count as its length. |

## Left out

- HTTP traffic is not modelled: the axios client, the bearer-token request
  interceptor, and the product, variant and cart endpoints. Their results
  are the `Response` parameters. The payloads of an add (product id,
  variant id and quantity) reach only the server, so they are not modelled.
  The requested quantity of an update is a parameter that the local result
  does not depend on (`Cart.UpdateIgnoresRequest`).
- Concurrency is not modelled. `addToCart` does not await its re-fetch, and
  requests in flight can interleave or return stale responses. Each
  operation is modelled as atomic, with the re-fetch outcome as a second
  parameter.
- Console logging is not modelled, and neither is `useCart`'s error outside a
  provider. Neither affects state.
- Authentication is not modelled: the Keycloak configuration, the token
  exchange and `localStorage` on the login page, and the decoding of the
  token payload in the navbar. These are foreign calls and browser storage.
- Prices, price formatting, dates and the fixed total texts of the checkout
  and cart pages are not modelled. They involve floating point, locale
  formatting, or constants with no computation behind them.
- Shipping and payment field validation and order placement are not
  modelled because the checkout page has none: its inputs are not bound to
  any state.
- Pure markup and routing are not modelled: home, product list, cart page,
  app, entry point, the carousel settings, the main-image highlight index and
  the navbar dropdown.
- ProductDetail.ClickColor and ProductDetail.ClickSize require that the
  clicked button is on the page: a colour that some variant has (exactly the
  listed colours, by `Colors`), or a variant of the selected colour (exactly
  the size options, by `OfColor`). A click on a button that is not rendered
  cannot happen.
- ProductDetail.ColorDisabledIffSoldOut assumes non-negative stock
  quantities. The code compares the sum with 0, and with negative quantities
  a colour could sum to 0 while some variant is non-zero. The code's own
  rule, sum equal to 0, is what `ColorDisabled` states.
- ProductDetail.SyncSelected is applied after every click. React skips the
  effect when a click does not change the colour or size. On a page kept
  synced (`ProductDetail.TransitionsKeepSynced`), re-running the lookup
  gives the same value.
