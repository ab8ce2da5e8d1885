# Velours Parfum shop: a verified model of its core

Velours Parfum is a Flask perfume shop. This Dafny project models the parts of it that decide what gets stored:

- the visitor's session cart: add, update, remove, count and the priced cart view;
- the all-or-nothing checkout, which creates an order with price snapshots, lowers stock and empties the cart;
- the administrator's handlers that change rows: delete or toggle a product, delete every product, set an order's status, add, edit or delete a category, toggle a user's admin flag, and delete a user with their orders;
- the uniqueness checks of registration, and the product listing filter;
- the locale machinery: `get_locale`, `set_language`, `custom_gettext` and the `TRANSLATIONS`/`LANGUAGES` tables;
- the start-up step that makes sure the default administrator exists;
- the GNU MO catalogue writer `create_mo_file`, and `french_translations`.

The model has two layers.

- **The specification layer** is pure. Each handler is a function from the shop's state (a `Store.Store` value holding every table, plus the session cart) to a reply and a new state. The lemmas about each handler sit beside it.
- **The handler layer** (`Handlers`) is imperative, like the source. It has two classes:
  - `Session` holds the visitor's cart and language;
  - `Database` holds the tables as fields that the methods change in place.

  Each method follows its handler's branches and loops. Each method is proved to end in exactly the reply and state that the matching function describes, so every lemma about the functions also holds for the handlers.

Conventions:

- Money is in integer cents. The source stores prices as floats.
- A cart is an insertion-ordered dictionary (`OrderedMap.Dict`, which models Python's `dict`) from the text of a product id to a quantity. The key is `str(product_id)` as the client sent it, so "1" and "01" are two keys that name the same product (`Cart.ParseId` reads them).
- The orders table keeps its rows in id order.
- New rows take the next id from a counter in the store.

Behaviours of the source that the model keeps as written:

- **Clamp path of add_to_cart.** When the new line would exceed the stock, the handler clamps its working copy and returns before `session['cart'] = cart` (routes.py:166-170). The model's reading: the stored cart is unchanged, and the reply reports the stock (`Cart.AddToCart`, reply `Adjusted`).
- **Missing product at checkout.** A cart line whose product was deleted makes checkout fail on `product.name` (routes.py:237), before anything is written. The model has a separate outcome for this, `Checkout.MissingProduct`, which changes nothing.
- **update_cart ignores `is_active`.** add_to_cart refuses an inactive product (routes.py:152), but update_cart only checks that the product exists and has the stock (routes.py:192-194). See `Cart.UpdateIgnoresActive`.
- **Unvalidated `lang`.** `get_locale` stores any non-empty `lang` query argument (app.py:52-53). `set_language` stores only a supported code (routes.py:15). See `App.UnvalidatedLang`.
- **Per-line stock check at checkout.** Each line is checked against its product's stock on its own (routes.py:226-228). Two keys naming one product can together take more than the stock; see "## Findings". The handlers follow the code as written (`Checkout.PlaceOrder`); `Checkout.PlaceOrderCovered` is the corrected check.
- **Python truthiness in the product filter.** A category, minimum price or maximum price of 0 is treated as absent (routes.py:39-46). See `Catalog.ZeroIsNoBound`.
- **The MO writer follows its own layout.** `create_mo_file` does not sort keys, does not NUL-terminate strings, and writes an empty hash table. The model describes the bytes it writes, not the ones the GNU gettext format would expect.

## Model

| member | source | states |
|---|---|---|
| OrderedMap.Put | routes.py:160-163 | `d[k] = v`: `k` now maps to `v`, every other key keeps its value, a present key keeps its position, and an absent key is appended at the end |
| OrderedMap.Pop | routes.py:208 | `d.pop(k, None)`: `k` is gone, every other key keeps its value, the remaining entries are exactly the old ones without `k`, and an absent key leaves the dictionary as it was |
| OrderedMap.UpdateAll | create_mo_files.py:17 | `d.update(t)`: every key of `t` takes `t`'s value, and every other key keeps `d`'s value |
| Catalog.Listing | routes.py:34-46 | the listed ids are existing products, and no inactive product is ever listed |
| Catalog.EmptySearchMatchesAll | routes.py:36-37 | the empty search is contained in every text, so `if search:` skipping it changes nothing |
| Catalog.ZeroIsNoBound | routes.py:39-46 | a category, minimum or maximum of 0 lists exactly what an absent one lists |
| Catalog.NoCriteriaListsActive | routes.py:34 | with no criteria, the listing is exactly the set of active products |
| Catalog.CriteriaNarrow | routes.py:36-46 | adding a search, category, minimum or maximum can only shrink the listing |
| Catalog.OwnCategoryKeeps | routes.py:39-40 | a listed product with a category stays listed when the filter names that category |
| Catalog.CrossedBoundsListNothing | routes.py:42-46 | a non-zero minimum above a non-zero maximum lists nothing |
| Accounts.Register | routes.py:93-109 | a taken email is refused first, then a taken username; both refusals change nothing; otherwise exactly one non-admin user is added under the next id and nothing else changes |
| Accounts.RegisterKeepsCredentialsUnique | routes.py:93-99 | if no two users shared an email or a username before registration, none do after it |
| Accounts.RegisterConsistent | routes.py:101-109 | registration keeps every reference between rows valid, and the new id was unused |
| Accounts.RegisterTwice | routes.py:93-95 | once an email is registered, registering it again is refused, whatever the username |
| Cart.ParseId | routes.py:150-152 | `int(product_id)` succeeds if and only if the key is a non-empty string of decimal digits |
| Cart.ParseShow | routes.py:150-152 | the text of an id reads back as that id |
| Cart.LeadingZero | routes.py:150-152 | a leading zero does not change the id: "01" names the product that "1" names |
| Cart.AddToCart | routes.py:148-171 | a key that `int` rejects fails the request; a missing or inactive product is refused, and so is a quantity above the stock; otherwise the line becomes old quantity plus requested quantity when that is within the stock; above the stock the reply reports the stock and the stored cart is unchanged; every other line is untouched in every case |
| Cart.UpdateCart | routes.py:185-199 | a quantity of 0 or less removes the line without reading the key; a positive quantity fails the request when `int` rejects the key, and is stored as given if and only if the product exists and has that much stock; otherwise the cart is unchanged; other lines are never touched |
| Cart.RemoveFromCart | routes.py:207-209 | the line is gone, every other line keeps its quantity, and no entry is added |
| Cart.RemoveIdempotent | routes.py:208 | removing the same key twice is the same as removing it once |
| Cart.KeysStayNumeric | routes.py:150-163 | every key the cart ever holds is one that `int` accepts: add and update store a key only after parsing it, and remove only drops lines |
| Cart.UpdateIgnoresActive | routes.py:192-194 | for an inactive product with enough stock, add is refused but update stores the quantity |
| Cart.TwoKeysOneProduct | routes.py:150-171 | with a stock of 5, adding 3 under "1" and then 3 under "01" both succeed, and the cart holds two lines for the same product |
| Cart.Count | routes.py:173-178 | cart_count's `sum(cart.values())`: the sum of the quantities over the lines; it has no contract of its own, and `CountBounds`, `AddCount` and `UpdateCount` state what it reports |
| Cart.CountBounds | routes.py:150-178 | a cart of non-negative quantities counts at least 0, and one of positive quantities at least one per line; since add_to_cart accepts a negative quantity, neither bound holds for every cart |
| Cart.AddCount | routes.py:158-177 | cart_count after add: a successful add raises the count by exactly the requested quantity; a refused add leaves it unchanged |
| Cart.UpdateCount | routes.py:187-199 | cart_count after update: the line's old quantity is replaced by the new one (by 0 when the line is removed); a refused update leaves the count unchanged |
| Cart.PricedLines | routes.py:131-140 | the cart page rows: each row is a cart line whose product exists, priced at the current price × quantity; every such line has a row; lines of deleted products are skipped (the checkout page, 275-285, shows the same rows) |
| Cart.RowsInCartOrder | routes.py:131-140 | the rows come in the cart's order, so no line is shown twice |
| Cart.ViewTotal | routes.py:131-142 | the displayed total is the value of the cart without the lines whose product was deleted |
| Cart.ViewShowsWholeCart | routes.py:131-140 | when every product of the cart exists, every line is shown and the displayed total is Σ price × quantity over the whole cart |
| Cart.PricedView | routes.py:127-142 | the view loop yields exactly the rows of `PricedLines` and the sum of their subtotals |
| Checkout.FirstBad | routes.py:226-228 | the position of the first line whose product is missing or short of stock; every earlier line passes |
| Checkout.Validate | routes.py:223-238 | validation succeeds if and only if every line's product exists with enough stock; it then yields the cart's full value and one pending item per line, in cart order, at the current price; otherwise it names the first failing line and says whether its product is missing or short |
| Checkout.ValidateCart | routes.py:223-238 | the loop that accumulates `total` and `order_items` and stops at the first bad line computes exactly `Validate` |
| Checkout.LowerLine | routes.py:261 | `product.stock -= quantity` lowers that product's stock by the quantity and leaves every other product unchanged |
| Checkout.Demand | routes.py:251-261 | what the stock loop takes from one product: the sum of the quantities on every line whose key names it; it has no contract of its own, and `DemandBounds`, `PlacedStock` and `Oversell` state its effect |
| Checkout.DemandBounds | routes.py:251-261 | a product that no line names loses nothing, and a cart of non-negative quantities takes a non-negative amount from each product |
| Checkout.Lowered | routes.py:251-261 | the product rows after the whole stock loop: the same products, each differing from before in its stock only, and a product that no line names unchanged |
| Checkout.LoweredStep | routes.py:251-261 | each pass of the stock loop lowers the current line's product on top of the earlier lines, so the loop ends with each product lowered by the total quantity of the lines that name it |
| Checkout.NewItems | routes.py:251-258 | one order item per pending line, in order, carrying the new order's id, the product, the quantity and the snapshot price |
| Checkout.PlaceOrder | routes.py:216-266 | an empty cart is refused; a line whose key `int` rejects or whose product is gone fails the request; an order is placed if and only if the cart is non-empty and every line passes; every refusal leaves the tables and the cart unchanged; a missing product is named and really is absent; a short product is named and really is short; a placed order takes the next order id and empties the cart |
| Checkout.NewItemsValue | routes.py:229-256 | the new items are worth exactly the cart's value at current prices |
| Checkout.PlacedOrderAndItems | routes.py:240-258 | a placed order adds exactly one order row, with status 'pending' and the cart's value as total; the old items stay first; then come exactly one item per cart line, in cart order, at the price of that moment; the items' value equals the order total |
| Checkout.PlacedStock | routes.py:226-261 | a placed order lowers each product's stock by the total quantity of the lines that name it and changes no other field; when no two lines name the same product, every stock stays non-negative |
| Checkout.Oversell | routes.py:226-261 | the cart {"1": 3, "01": 3} against a stock of 5 is placed, and the stock ends at -1 |
| Checkout.PlaceOrderCovered | routes.py:226-261 | the corrected checkout: an order is placed if and only if every line passes and every product has stock for all the lines that name it; a placed order is exactly the handler's; a refusal changes nothing and names a line whose product is short |
| Checkout.CoveredKeepsStock | routes.py:226-261 | the corrected checkout never drives a stock below zero, whatever keys the cart holds |
| Checkout.CoveredAgrees | routes.py:226-261 | for a cart with one line per product, the corrected checkout is exactly the handler's |
| Checkout.CoveredRefusesOversell | routes.py:226-261 | the corrected checkout refuses the cart {"1": 3, "01": 3} against a stock of 5, names "1" and changes nothing |
| Checkout.PlaceOrderConsistent | routes.py:240-263 | checkout by an existing user keeps every reference between rows valid |
| Checkout.ShownTotalIsCharged | routes.py:223-286 | the order total equals the total the checkout page displayed for the same cart |
| Checkout.ShortStockScenario | routes.py:226-238 | cart {str(A): 2} with A's stock at 1 is refused with that line named, and nothing changes |
| Admin.ItemsOfProduct | routes.py:446 | `OrderItem.query.filter_by(product_id=...)`: exactly the items of that product |
| Admin.ItemsOfOrders | routes.py:760-763 | exactly the items of the given orders |
| Admin.ItemsOutside | routes.py:763 | exactly the items of no given order, in table order |
| Admin.ItemsOfProductCounts | routes.py:446 | each item of the product occurs in the result as often as in the table, and no other item occurs |
| Admin.ItemsOutsideConcat | routes.py:763 | filtering a table split in two is filtering each part, in table order |
| Admin.ItemsSplit | routes.py:759-763 | the deleted items and the kept items together are the old items: no item is lost or duplicated |
| Admin.OrdersOf | routes.py:755-756 | `user.orders`: exactly the orders of that user |
| Admin.OrdersOfCounts | routes.py:755-756 | each order of the user occurs as often as in the table, and no other order occurs |
| Admin.OrdersOfConcat | routes.py:755-756 | filtering an order table split in two is filtering each part, in id order |
| Admin.Spent | routes.py:756 | `total_spent`: the sum of the order totals, left to right; at least 0 when no total is negative |
| Admin.SpentConcat | routes.py:756 | the spending of a table split in two is the sum of the parts' spending |
| Admin.DropImage | routes.py:451-455 | removing a product's image file removes that name only, and nothing when the product has no image |
| Admin.DeleteProduct | routes.py:438-458 | a non-admin is refused and nothing changes; an unknown id gives 404; a product referenced by any order item is kept, and the reply counts those items; otherwise exactly that product row and its image go |
| Admin.ToggleProduct | routes.py:469-478 | a non-admin is refused and nothing changes; an unknown id gives 404; otherwise only that product's `is_active` flips, and the reply carries the new value |
| Admin.DeleteAllProducts | routes.py:489-531 | a non-admin is refused; with no product nothing is done; otherwise every product, order and order item goes, along with the products' image files; users, categories and the id counters stay; the reply counts products, orders, items and the files actually removed |
| Admin.UpdateOrderStatus | routes.py:572-585 | a non-admin is refused; an unknown order gives 404; the status is written if and only if it is one of pending/confirmed/shipped/delivered/cancelled; nothing else changes |
| Admin.AddCategory | routes.py:599-616 | a non-admin is refused and nothing changes; otherwise exactly one category is added, with the submitted name and description, under the id the database assigns; every other row stays |
| Admin.EditCategory | routes.py:620-636 | a non-admin is refused; an unknown id gives 404; otherwise only that category's name and description are overwritten |
| Admin.CategoryFormsConsistent | routes.py:599-636 | adding or editing a category keeps every reference valid, and no product changes category |
| Admin.DeleteCategory | routes.py:642-655 | a non-admin is refused; an unknown id gives 404; the category is deleted if and only if no product belongs to it; nothing else changes |
| Admin.ToggleUserAdmin | routes.py:714-728 | a non-admin is refused; an unknown id gives 404; acting on one's own account is refused; otherwise only that user's admin flag flips |
| Admin.DeleteUser | routes.py:741-774 | a non-admin is refused; an unknown id gives 404; deleting oneself is refused; otherwise the user goes, along with exactly their orders and those orders' items, and everything else stays; the reply gives the number of orders, the number of deleted items and the sum of the order totals |
| Admin.NonAdminChangesNothing | routes.py:439-441 | for every admin handler (the same gate opens each one: 470, 490, 573, 643, 715, 742), a caller who is not an administrator gets 'unauthorized' and the store is unchanged |
| Admin.ActorStaysAdmin | routes.py:722-751 | no admin request can take away the acting administrator's rights: toggling or deleting one's own account is refused |
| Admin.ApplyConsistent | routes.py:436-788 | every admin request keeps every reference between rows valid (items point to existing orders and products, orders to users, products to categories) |
| Admin.DeleteUserConsistent | routes.py:758-771 | deleting a user with their orders and items leaves no dangling item or order |
| Admin.UpdateOrderStatusValid | routes.py:580-581 | if every order had a whitelisted status, every order still does |
| Admin.ToggleProductTwice | routes.py:475 | toggling a product twice gives the store back |
| Admin.DeleteUserItems | routes.py:758-763 | the items deleted with a user are exactly the items of their orders, the other items stay in order, and the reply counts exactly the deleted ones |
| Translations.Table | app.py:76-249 | `TRANSLATIONS[locale]`: the English table for 'en', the Spanish one for 'es', the empty table for 'fr', and none for any other code; it has no contract of its own, and `App.Translate`, `App.FrenchTableEmpty`, `App.UnknownLocaleIsIdentity` and `SameTexts` state what a lookup gives |
| Translations.SameTexts | app.py:76-248 | the English and the Spanish tables translate exactly the same French texts, so no message has one translation without the other |
| App.Translate | app.py:261-265 | `TRANSLATIONS[locale][text]` when the locale has a table containing the text; the text itself otherwise |
| App.TranslationLocale | app.py:256-259 | the session language if set; otherwise the browser's match; otherwise 'fr' |
| App.Gettext | app.py:253-265 | custom_gettext: the translation in the chosen locale's table when both lookups hit; the text unchanged otherwise |
| App.GetLocale | app.py:50-60 | a non-empty `lang` is stored in the session, unchecked, and becomes the locale; otherwise the session is kept, and its language, if any, is the locale; otherwise the browser's match, else 'fr' |
| App.SetLanguage | routes.py:13-17 | a supported code is stored; any other code leaves the session language as it was |
| App.FrenchTableEmpty | app.py:249 | the 'fr' table is empty |
| App.FrenchIsIdentity | app.py:249-265 | French gives every text back unchanged, and so does a fresh visitor with no browser match |
| App.UnknownLocaleIsIdentity | app.py:261-265 | a session locale outside fr/en/es translates nothing |
| App.PageAndTextLocaleAgree | app.py:56-60 | without `lang`, get_locale picks the same locale that custom_gettext (app.py:256-259) translates into |
| App.FreshVisitorLocale | app.py:60 | with no `lang` and no session language, the locale is the browser's match or 'fr' (hence supported), and the session stays empty |
| App.LangSticks | app.py:52-57 | after `?lang=x`, later requests without `lang` keep locale x, whatever the browser prefers |
| App.SupportedSessionStays | routes.py:15-16 | while the session holds a supported code, neither set_language nor get_locale without `lang` leaves the supported set |
| App.UnvalidatedLang | app.py:52-53 | `?lang=de` is stored and served, although set_language refuses "de", and it translates nothing |
| App.EnsureAdmin | app.py:276-293 | when some user has the admin email, nothing changes; otherwise, when a user is already named "admin", the commit breaks the unique username and the app does not start; otherwise exactly one admin user is added under the next id |
| App.EnsureAdminIdempotent | app.py:284-285 | after a start-up that succeeds some user owns the admin email, and starting again changes nothing |
| App.SquattedAdminEmail | app.py:284-291 | if a non-admin already registered the admin email and there is no administrator, start-up still leaves no administrator |
| App.SquattedAdminName | app.py:284-293 | a user named "admin" under another email makes every start-up fail |
| App.EnsureAdminConsistent | app.py:286-293 | a start-up that succeeds keeps the references valid and keeps emails and usernames unique |
| MoFile.Pack32 | create_mo_files.py:50-72 | `struct.pack('<I', w)` is four bytes (read back by `Unpack32Pack32`) |
| MoFile.Unpack32Pack32 | create_mo_files.py:50-72 | a packed little-endian word reads back as the same number |
| MoFile.PackAll | create_mo_files.py:50-72 | the packed words take four bytes each |
| MoFile.PackAllAt | create_mo_files.py:50-72 | word j of a packed sequence sits at bytes 4j..4j+4 |
| MoFile.Concat | create_mo_files.py:74-80 | the written strings take Σ of their lengths |
| MoFile.ConcatAt | create_mo_files.py:74-80 | string i lies in the concatenation right after the strings before it |
| MoFile.Slots | create_mo_files.py:35-45 | one (length, offset) entry per string |
| MoFile.SlotsAt | create_mo_files.py:35-39 | entry i is (length of string i, start + Σ lengths of strings 0..i-1) |
| MoFile.SlotWords | create_mo_files.py:64-72 | each table entry is written as two words |
| MoFile.SlotWordsAt | create_mo_files.py:64-72 | entry i's length is word 2i and its offset word 2i+1 |
| MoFile.Words | create_mo_files.py:49-72 | the words written: 7 header words, then 2 per key, then 2 per value |
| MoFile.KeyWords | create_mo_files.py:28-39 | key i's words are its byte length and 28 + 16N + the bytes of keys 0..i-1 |
| MoFile.ValueWords | create_mo_files.py:29-45 | value i's words are its byte length and 28 + 16N + all key bytes + the bytes of values 0..i-1 |
| MoFile.LayoutIs | create_mo_files.py:49-80 | a written file holds every word at its position, then the key bytes, then the value bytes, and nothing else |
| MoFile.FileHeader | create_mo_files.py:49-62 | the header reads back as 0x950412de, 0, N, 28, 28 + 8N, 0, 0, and the file is 28 + 16N + key bytes + value bytes long |
| MoFile.FileKey | create_mo_files.py:64-76 | key entry i lies inside the file and points to exactly key i's bytes |
| MoFile.KeyOffset | create_mo_files.py:28-39 | key i's offset word is 28 + 16N + Σ lengths of keys 0..i-1 |
| MoFile.FileValue | create_mo_files.py:69-80 | value entry i lies inside the file and points to exactly value i's bytes |
| MoFile.ValueOffset | create_mo_files.py:29-45 | value i's offset word is 28 + 16N + all key bytes + Σ lengths of values 0..i-1 |
| MoFile.FileParses | create_mo_files.py:49-80 | a file with this layout parses (header, both tables, every slice) to exactly its keys and values |
| MoFile.RoundTrip | create_mo_files.py:9-80 | reading back the written file gives exactly the keys and the values that were written |
| MoFile.SmallFilesFit | create_mo_files.py:49-72 | no `struct.pack` fails as long as the whole file stays below 2^32 bytes |
| MoFile.MetaFirst | create_mo_files.py:15-21 | without an empty key among the translations, the entries are the metadata entry followed by the translations in insertion order, so N = number of translations + 1 |
| MoFile.MetaOverridden | create_mo_files.py:16-17 | an empty key among the translations replaces the metadata value, and every other key keeps its translation |
| MoFile.Offsets | create_mo_files.py:35-45 | the running-offset loop builds exactly the (length, offset) table |
| MoFile.PackWords | create_mo_files.py:49-72 | the `struct.pack` writes give the packed words, or fail at the first word of 2^32 or more |
| MoFile.WriteAll | create_mo_files.py:74-80 | the `f.write` loop appends the strings one after the other |
| MoFile.CreateMo | create_mo_files.py:9-80 | create_mo_file's bytes: present exactly when every header and offset word fits in 32 bits, and then read back by the independent reader `Parse` as exactly the metadata entry and the translations, keys and values in order |
| MoFile.CreateMoIs | create_mo_files.py:47-80 | the written bytes are the packed words followed by the key bytes and the value bytes, or a failure when a word does not fit |
| MoFile.WriteMo | create_mo_files.py:9-80 | create_mo_file's body produces exactly the layout above, or fails when a word does not fit |
| MoFile.FrenchTranslations | create_mo_files.py:171 | the same keys as the English table, in the same order, each mapped to itself |
| Handlers.Session.constructor | routes.py:127 | a session without a 'cart' key reads as the empty cart, with no language |
| Handlers.Session.AddToCart | routes.py:146-171 | the handler's early returns, its working copy and its clamp end in exactly the reply and stored cart of `Cart.AddToCart`; the language is untouched |
| Handlers.Session.UpdateCart | routes.py:182-199 | ends in exactly the reply and cart of `Cart.UpdateCart` |
| Handlers.Session.RemoveFromCart | routes.py:203-211 | ends in exactly the cart of `Cart.RemoveFromCart` |
| Handlers.Session.SetLanguage | routes.py:14-16 | ends in exactly the session language of `App.SetLanguage`; the cart is untouched |
| Handlers.Session.GetLocale | app.py:50-60 | writes the session and returns exactly what `App.GetLocale` describes |
| Handlers.Database.PlaceOrder | routes.py:215-266 | the pricing loop, the order row, the item and stock loop, and the cart removal end in exactly the reply, tables and cart of `Checkout.PlaceOrder` |
| Handlers.Database.SaveOrder | routes.py:240-261 | adds the order under the next id, its item rows after the old ones, and lowers the stock of each line's product |
| Handlers.Database.RecordLines | routes.py:250-261 | the loop appends one item per pending line and lowers each product's stock by its line's quantity |
| Handlers.Database.DeleteProduct | routes.py:438-458 | ends in exactly the reply and tables of `Admin.DeleteProduct` |
| Handlers.Database.ToggleProduct | routes.py:469-478 | ends in exactly the reply and tables of `Admin.ToggleProduct` |
| Handlers.Database.DeleteAllProducts | routes.py:489-531 | ends in exactly the reply and tables of `Admin.DeleteAllProducts` |
| Handlers.Database.RemoveImages | routes.py:518-528 | the loop removes each named file that is present, and counts exactly the removed ones |
| Handlers.Database.UpdateOrderStatus | routes.py:572-585 | ends in exactly the reply and tables of `Admin.UpdateOrderStatus` |
| Handlers.Database.AddCategory | routes.py:601-616 | ends in exactly the reply and tables of `Admin.AddCategory` |
| Handlers.Database.EditCategory | routes.py:622-636 | ends in exactly the reply and tables of `Admin.EditCategory` |
| Handlers.Database.DeleteCategory | routes.py:642-655 | ends in exactly the reply and tables of `Admin.DeleteCategory` |
| Handlers.Database.ToggleUserAdmin | routes.py:714-728 | ends in exactly the reply and tables of `Admin.ToggleUserAdmin` |
| Handlers.Database.DeleteUser | routes.py:741-774 | ends in exactly the reply and tables of `Admin.DeleteUser` |
| Handlers.Database.RemoveUser | routes.py:753-771 | takes the statistics, deletes the user's orders' items, their orders and the user |
| Handlers.Database.DropOrderItems | routes.py:759-763 | the per-order loop deletes exactly the items of the user's orders and counts them |
| Handlers.Database.Register | routes.py:93-109 | ends in exactly the reply and tables of `Accounts.Register` |
| Handlers.Database.EnsureAdmin | app.py:276-293 | reports whether start-up succeeds exactly as `App.EnsureAdmin` does, ends in its tables when it does, and changes nothing when it does not |

## Left out

- Flask plumbing is not modelled: routing, templates, flash messages, redirects, `login_required`, JSON parsing and pagination. Each handler's effect is modelled as a reply value.
- Cart.ParseId: only ASCII digits are read. Python's `int` also accepts a sign, surrounding whitespace, underscores between digits and other Unicode digits; "-1" fails the request in the model where the source answers 'Produit non trouvé'. A quantity that makes `int(...)` raise is not modelled; the quantity is an integer input.
- Cart.PricedLines: the cart must hold only keys that `int` accepts. No other key can enter it (`Cart.KeysStayNumeric`); with such a key the source's page fails.
- Flask's cookie session stores the cart as JSON with sorted keys, so each request reads the cart back in key-text order ("10" before "2"), not insertion order. The model keeps insertion order. This changes which failing line checkout names first, and the order of the items and of the page rows; it does not change which carts are placed, the totals or the stock.
- Money is in integer cents. The source's float prices and their rounding (`:.2f`) are not modelled.
- Catalog.Listing: the search is exact substring containment. SQLAlchemy's `contains` becomes SQL `LIKE`, which in SQLite ignores ASCII case and treats `%` and `_` in the search as wildcards.
- Password hashing (`generate_password_hash`) is not modelled; the hash is an input. `request.accept_languages.best_match` is not modelled either; its result is an input, which `App.ValidMatch` restricts to a supported code where a lemma needs it.
- Database exceptions and `rollback` are not modelled, apart from the unique-username failure at start-up (`App.EnsureAdmin`). The `except` path of custom_gettext is not modelled either. Each handler is one atomic step, so races between requests are not modelled.
- Admin.DeleteAllProducts: the `os.path.exists(images_path)` check on the image directory is not modelled. When the directory is missing, the source removes no file and reports 0 images.
- Admin.DeleteAllProducts and Admin.DeleteProduct share one set of image names. The source looks in `static/images/products` for delete-all and in `UPLOAD_FOLDER` for a single delete.
- Timestamps (`created_at`) and PIL thumbnailing are not modelled. Image files are a set of names.
- models.py is not part of this model. Its behaviour is assumed: a new order's status defaults to 'pending'; `is_admin` defaults to false, so a registered user is not an administrator; usernames and emails carry unique constraints, which `App.EnsureAdmin` relies on; `user.orders` lists a user's orders in id order.
- New rows take the next id from a counter that never goes back. SQLite assigns max(id)+1, so after the newest row is deleted its id is reused; the model gives a new id instead.
- `category.products`, `user.orders` and `order.items` are modelled as filters over the tables.
- MoFile.WriteMo: file I/O and `os.makedirs` are not modelled. When a word overflows, the source leaves a partly written file behind; the model returns no bytes.
- MoFile is given keys and values as bytes; the UTF-8 encoding step is not modelled.
- The English and Spanish dictionaries of create_mo_files.py are not modelled; `FrenchTranslations` is stated for any table.
- The catalogue is written without sorting, NUL terminators or a hash table, as the source does. A GNU reader that binary-searches the keys may not find them; the model does not state what such a reader would do.
- The read-only admin pages are not modelled: dashboard, product, order, category and user lists, order and user details. They change nothing; their status and admin filters and their statistics are left out. The other read-only pages are not modelled either: profile, login, product detail.
- The product create and edit forms (routes.py:342-434) are outside the modelled core. They parse float prices and handle image uploads.
- Admin.AddCategory: the new category's id is an input, which must be unused. The source leaves it to SQLite.

## Findings

| source | as written | input that shows it | evidently intended | confidence | as-written member | corrected member |
|---|---|---|---|---|---|---|
| routes.py:226-261 | checkout checks each cart line against its product's stock on its own, then lowers the stock once per line | product 1 with stock 5 and the cart {"1": 3, "01": 3}, built by two add_to_cart requests that each succeed (`Cart.TwoKeysOneProduct`) | an order is placed only when each product has stock for everything the cart takes from it, so no stock goes below zero | not executed; the "01" key needs a request that sends the id as that text | Checkout.Oversell | Checkout.PlaceOrderCovered |

The handlers keep the code as written. `Checkout.CoveredAgrees` shows that the corrected checkout and the handler's coincide on every cart with one line per product, so the properties proved about `Checkout.PlaceOrder` hold for the corrected checkout on those carts.
