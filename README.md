# Gardenia storefront screens: form reducer and order-line model

A Dafny model of the client-side logic in two screens of the Gardenia mobile
storefront.

- **Authentication form** (`AuthForm`, `auth_form.dfy`). The screen keeps its
  form state in a reducer. Each `FORM_INPUT_UPDATE` action copies the
  `inputValues` and `inputValidities` maps with one key overwritten. If the key
  is new, the copy adds it. The reducer then folds `formIsValid` as the AND of
  every entry of the new validity map. Any other action returns the state
  as it is. The form starts with `email` and `password` both empty and invalid.
  The submit button is disabled when either value is empty.
  - `Reduce` is the transition as a function.
  - `FormReducer` is the same transition as the screen runs it. Its `while`
    loop visits the validity keys in an arbitrary order, which also shows that
    the result does not depend on iteration order.
- **Product detail order line** (`ProductDetails`, `product_details.dfy`). The
  class `ProductDetailScreen` holds the screen's state: `quantity` (starts at
  1), `variationOption` (starts at the placeholder label `"Selecteaza"`), and
  `price` and `variationId` (start undefined, here `None`).
  - `UpdatePrice` scans the variations in index order. It sets both values
    from every entry whose label matches, so the last match wins. With no
    match, both values are left as they were.
  - The minus button decrements only above 1. The plus button increments
    without bound.
  - The add-to-cart button is disabled while the label is the placeholder.
  - The handler builds the tuple
    `(product, price, quantity, variationOption, productId, variationId)`.
- **Description tag removal** (`HtmlText`, `html_text.dfy`). This is the
  replacement of `/<[^>]*>/g` with the empty string. A `<` that has some later
  `>` is deleted together with everything up to the first such `>`. A `<` with
  no later `>` is kept. `StripHtmlTags` returns `None` (JavaScript
  `undefined`) for a falsy description.

`Wrappers` (`wrappers.dfy`) holds the `Option` type.

Behaviours of the code that the model keeps as written:
- The variation loop has no `break`, so when several variations share a
  label, the **last** match wins, not the first.
- When no variation matches, price and id keep their old values rather than
  being reset.
- The add-to-cart gate tests the label against the placeholder, not whether a
  variation id is resolved. `PlaceholderEntryScenario` shows the difference:
  a fetched entry labelled `"Selecteaza"` resolves a price and an id, yet the
  button stays disabled.
- A reducer update for a field the form never declared adds that field rather
  than being rejected.
- The submit button looks only at whether the email and password are empty.
  It ignores `formIsValid` (`SubmitEnabledWhileInvalid`).

Values are immutable in Dafny, so "the old state is not mutated" holds by
construction. `Reduce` returns a new `FormState` and the argument is
unchanged.

## Model

| member | source | states |
|---|---|---|
| `AuthForm.InitialState` | screens/AuthScreen.js:42-52 | the initial form has exactly the fields email and password, is not valid, and its aggregate flag agrees with its validities |
| `AuthForm.Reduce` | screens/AuthScreen.js:13-34 | an update sets `input`'s value and validity, keeps every other key's entry, makes each key set the old keys plus `input`, and makes `formIsValid` the AND of the new validities (equivalently: the new validity and every other field's validity); any other action type returns the state unchanged |
| `AuthForm.FormReducer` | screens/AuthScreen.js:13-34 | the copy-and-fold implementation, with its loop over the validity keys in any order, computes exactly `Reduce` |
| `AuthForm.ReduceIdempotent` | screens/AuthScreen.js:13-31 | dispatching the same action twice gives the same state as dispatching it once |
| `AuthForm.ReduceLastWriteWins` | screens/AuthScreen.js:15-22 | two updates of the same field leave only the second one's effect |
| `AuthForm.ReduceCommutes` | screens/AuthScreen.js:15-22 | updates of two different fields commute |
| `AuthForm.ReduceAllKeepsInvariant` | screens/AuthScreen.js:13-34 | after any sequence of actions from a consistent state, the two maps still have equal key sets, those keys are the old ones plus the updated fields, and `formIsValid` is the AND of the final validity map |
| `AuthForm.LastUpdate` | screens/AuthScreen.js:15-22 | the index found is an update of the field and no later action updates it; there is none exactly when no action updates the field |
| `AuthForm.ReduceAllLatest` | screens/AuthScreen.js:15-22 | after any sequence of actions, each field holds the value and validity of the last action that updated it; a field no action updated keeps its old entry, or stays absent |
| `AuthForm.ReduceAllKeepsConsistent` | screens/AuthScreen.js:23-26 | after any sequence of actions, `formIsValid` is still the AND of the validity map, also when the two maps describe different fields |
| `AuthForm.FormValidIsAndOfLatest` | screens/AuthScreen.js:23-26 | after any sequence of actions from a state whose flag agrees with its validities (the two maps need not share their fields), `formIsValid` holds exactly when no field's latest recorded validity is false, whatever the order of the updates |
| `AuthForm.SignInScenario` | screens/AuthScreen.js:42-52 | from the initial state, a valid email alone leaves the form invalid, and a valid password after it makes the form valid |
| `AuthForm.SubmitGateAfter` | screens/AuthScreen.js:141 | on every state reachable from the initial one, both the email and the password field exist, and the submit button is disabled exactly when the latest email or the latest password typed is empty |
| `AuthForm.SubmitIgnoresValidity` | screens/AuthScreen.js:141 | the submit gate gives the same answer whatever the validities and `formIsValid` are |
| `AuthForm.SubmitEnabledWhileInvalid` | screens/AuthScreen.js:141 | a valid email followed by an invalid non-empty password gives a form that is not valid but whose submit button is enabled |
| `ProductDetails.LastMatch` | screens/ProductDetailsScreen.js:59-65 | the resolved index is an entry with the chosen label and no later entry has that label; there is no index exactly when no entry has the label |
| `ProductDetails.UniqueOptionsResolve` | screens/ProductDetailsScreen.js:59-65 | when labels are unique, choosing entry k's label resolves to entry k |
| `ProductDetails.DuplicateOptionLastWins` | screens/ProductDetailsScreen.js:59-65 | with two entries labelled "M", the later one is resolved |
| `ProductDetails.ProductDetailScreen.constructor` | screens/ProductDetailsScreen.js:33-38 | the screen starts with quantity 1, the placeholder label, and no price and no variation id |
| `ProductDetails.ProductDetailScreen.UpdatePrice` | screens/ProductDetailsScreen.js:58-66 | when some entry has the label, price and id come from the same entry, the last matching one; when none has it, both keep their previous values; nothing else changes; re-resolving the label already shown keeps the screen invariant |
| `ProductDetails.ProductDetailScreen.SelectOption` | screens/ProductDetailsScreen.js:111-130 | choosing a label offered by the picker records it and resolves price and id from its entry; the quantity is kept and the screen invariant is preserved |
| `ProductDetails.ProductDetailScreen.Decrement` | screens/ProductDetailsScreen.js:136-139 | the quantity becomes q-1 when q > 1 and stays q otherwise, so it stays at least 1 |
| `ProductDetails.ProductDetailScreen.Increment` | screens/ProductDetailsScreen.js:153-154 | the quantity becomes q+1 and the screen invariant (quantity at least 1) is preserved |
| `ProductDetails.ProductDetailScreen.AddToCartDisabled` | screens/ProductDetailsScreen.js:169 | the gate is the placeholder label; when it is open in a valid state, a price and an id are resolved |
| `ProductDetails.ProductDetailScreen.AddToCartHandler` | screens/ProductDetailsScreen.js:86-89 | the request is exactly (product, price, quantity, label, product id, variation id) of the current state; when the gate is open, its price and id belong to one entry carrying the chosen label and its quantity is at least 1 |
| `ProductDetails.ProductDetailScreen.DescriptionText` | screens/ProductDetailsScreen.js:182 | the shown description is the tag removal of the product's description (`RemoveTags`), contains no tag left to remove, is no longer than the original, and equals it when it has no `<` |
| `ProductDetails.LargeSizeScenario` | screens/ProductDetailsScreen.js:86-89 | with one variation (7, "L", 20), choosing "L" and pressing plus twice yields the request (product, 20, 3, "L", productId, 7) |
| `ProductDetails.PlaceholderEntryScenario` | screens/ProductDetailsScreen.js:169 | when the list has an entry labelled "Selecteaza", choosing it resolves price and id but leaves the button disabled |
| `HtmlText.RemoveTags` | screens/ProductDetailsScreen.js:82 | the output has no `<` followed later by a `>`, is no longer than the input, and contains a `>` only if the input does |
| `HtmlText.TagFreeUnchanged` | screens/ProductDetailsScreen.js:82 | text in which no `<` is followed by a `>` is returned unchanged |
| `HtmlText.NoOpenUnchanged` | screens/ProductDetailsScreen.js:82 | text containing no `<` is returned unchanged |
| `HtmlText.RemoveTagsIdempotent` | screens/ProductDetailsScreen.js:82 | stripping twice gives the same text as stripping once |
| `HtmlText.PlainPrefixKept` | screens/ProductDetailsScreen.js:82 | text before the first `<` is kept in place |
| `HtmlText.TagDropped` | screens/ProductDetailsScreen.js:82 | a complete `<...>` with no `>` inside is removed together with its contents |
| `HtmlText.UnclosedKept` | screens/ProductDetailsScreen.js:82 | a `<` with no later `>` is kept |
| `HtmlText.StripHtmlTags` | screens/ProductDetailsScreen.js:79-84 | a missing or empty description yields undefined; any other one yields the tag removal of the text (`RemoveTags`): tag-free text no longer than the input, equal to it when it has no `<` |
| `HtmlText.ExampleParagraph` | screens/ProductDetailsScreen.js:82 | `<p>Hi</p>` becomes `Hi` |
| `HtmlText.ExampleNested` | screens/ProductDetailsScreen.js:82 | `a<b<c>d` becomes `ad`: a tag ends at the first `>`, so it swallows an inner `<` |
| `HtmlText.ExampleUnclosed` | screens/ProductDetailsScreen.js:82 | `1<2` is unchanged: the `<` is never closed |

## Left out

- Rendering, the picker and button markup, the style sheets and the `Dimensions` arithmetic: these are presentation only, and the arithmetic is floating point.
- The navigation options and the cart badge (screens/ProductDetailsScreen.js:187-215): these are navigation chrome.
- Fetching the variations and the `isLoading` toggling (screens/ProductDetailsScreen.js:41-52): asynchronous store dispatch. The variation list is fixed when the screen object is built. The model does not describe a list that arrives after a label was chosen; the code does not re-resolve price and id when that happens.
- `authHandler` (screens/AuthScreen.js:60-88): network login and sign-up, alerts and navigation.
- The store selectors and the cart and variation action creators are not part of this model. The cart request is returned as a value instead of being dispatched.
- The per-field validator of the `Input` component is not part of this model. `isValid` is an input of the action.
- React state updates are modelled as immediate field assignments. The model does not capture batching, or stale closures when two taps land before a re-render.
- `ProductDetails.ProductDetailScreen.SelectOption` requires the chosen label to be one of the variations' labels, because the picker only offers those items (screens/ProductDetailsScreen.js:123-128). `UpdatePrice` itself accepts any label.
- `ProductDetails.ProductDetailScreen.AddToCartHandler` has no precondition. The cart icon inside the button has its own press handler (screens/ProductDetailsScreen.js:174), so the handler can be reached whatever the gate says.
- `HtmlText.StripHtmlTags` does not model two things in the source. The helper assigns the undeclared `str` (screens/ProductDetailsScreen.js:81): in sloppy mode that writes a global, and in strict mode it throws a ReferenceError. The helper is also never called in this file. The rendered text uses the inline replacement at screens/ProductDetailsScreen.js:182, which `DescriptionText` models.
- Prices and ids are integers, not JavaScript numbers. Descriptions are strings; `toString` on other kinds of value is not modelled. A product that is not found (undefined `selectedProduct`) is not modelled.
- `AuthForm.SubmitDisabled` requires both `email` and `password` keys. Every state reachable from the initial one has them (`SubmitGateAfter`). On a state without them the source fails when it reads `.length` of `undefined`.
