# Tour de Pizza ordering core, in Dafny

This project models the domain core of the Tour de Pizza ordering system, a pizza shop
with a backend and a browser client. The modelled parts are these:

- **Value objects.** `Allergy`, `DeliveryAddress` and `Payment` are immutable records.
  Each has its own validation rules and a JSON export. A payment masks its card number
  and drops its CVV when it is built.
- **Entities.** `Topping` is a value: nothing changes it once it is built. `Pizza`,
  `Customer` and `Order` are classes, because the source changes their fields in place.
  - A pizza holds its toppings and its allergen list, and prices itself.
  - A customer holds a list of allergies, unique by name.
  - An order holds items and moves between statuses. Each item is
    `{ pizzaId, pizza, quantity, price }`, and `pizza` is a reference to the catalogue
    `Pizza` object.
- **Repositories.** The in-memory stores for orders, customers, pizzas and toppings.
  - Each JavaScript `Map` becomes a sequence of stored objects in insertion order.
    `Array.from(map.values())` lists them in that order.
  - Each store keeps its keys unique (`Valid()`).
  - `save` is an upsert that keeps the entry's place. `update` refuses unknown ids.
  - The pizza and topping stores are seeded with sample data.
  - The customer store tags every allergy as encrypted when it writes a customer.
- **Services.** The order, pizza and customer services.
  - Each looks up the stored object and changes that same object in place.
  - Each writes the object back with `update` or `save`.
  - A thrown `Error` becomes `Err(message)` carrying the same message.
  - Cross-entity rules covered: the allergen check when an order is confirmed, rejection
    of a duplicate email, topping availability, and keeping a pizza's allergen list in
    step with its toppings.
- **Cart.** The browser-side cart store holds items and the ids of the checkout in
  progress.

Modelling conventions:

- Identifiers and the clock are not generated inside the model. A constructor that would
  call `uuidv4()` takes a `freshId` argument. An operation that would read `new Date()`
  takes `now: nat`.
- Prices are real numbers.
- A missing (`null` or `undefined`) string is the empty string wherever the source's check
  (`!x || x.trim() === ''`) treats the two alike. A missing value is `Option` where the
  source's default parameters tell the two apart.

Where the design description of the system and the code disagree, the model follows the
code:

- An order item holds a live reference to the catalogue pizza, not a snapshot copy.
- `confirm()` confirms an order from any status, not only from pending.
- Adding a topping to a stored pizza merges the topping's allergens into the existing list
  (and only when the topping declares any). Only removing a topping rebuilds the list
  from scratch.
- A custom pizza's allergen list is deduplicated first, and `dairy` and `gluten` are
  pushed on after that. A dairy topping therefore lists `dairy` twice.
- `addAllergy` moves `updatedAt` only when the allergy is added.
- `updateCustomer` sets the name before any check. The name change stays on the stored
  customer even when the call then fails.
- Order quantities are not required to be at least 1.

## Model

| member | source | states |
|---|---|---|
| Text.MissingIffAllSpace | backend/src/domain/value-objects/Allergy.js:36 | the "is required" test (missing, or blank after `trim`) holds exactly when the string is nothing but whitespace |
| Text.StripSpacesIdempotent | backend/src/domain/value-objects/Payment.js:38 | removing whitespace with `replace(/\s/g, '')` twice removes nothing more |
| Text.LowerIdempotent | backend/src/domain/repositories/PizzaRepository.js:48-52 | lower-casing twice is lower-casing once |
| Reports.SelectFacts | backend/src/domain/value-objects/Allergy.js:33-48 | a validation report lists only the rules' own messages, and is empty exactly when no rule fails |
| Reports.SelectMember | backend/src/domain/value-objects/Allergy.js:33-48 | with distinct messages, a rule's message is reported exactly when that rule fails |
| Keyed.Find | backend/src/domain/entities/Order.js:17 | `find` by key: absent exactly when no element has the key, otherwise the first position that has it |
| Keyed.RemoveKeyMembers | backend/src/domain/entities/Order.js:34-37 | `filter(x => key(x) !== k)` keeps exactly the elements without the key |
| Keyed.RemoveKeyOne | backend/src/domain/entities/Order.js:34-37 | a single element survives the filter exactly when its key is another one |
| Keyed.RemoveKeyAppend | backend/src/domain/entities/Order.js:34-37 | the filter splits over a concatenation, so the kept elements keep their order |
| Keyed.WithKeyMembers | backend/src/domain/repositories/OrderRepository.js:17-19 | `filter(x => key(x) === k)` keeps exactly the elements with the key |
| Keyed.RemoveKeyGet | backend/src/domain/repositories/OrderRepository.js:30-32 | after deleting a key it is not found, and every other key finds what it found before |
| Keyed.RemoveKeyKeepsUnique | backend/src/domain/repositories/OrderRepository.js:30-32 | deleting keeps keys unique |
| Keyed.UpsertGet | backend/src/domain/repositories/OrderRepository.js:25-28 | after `map.set(key(x), x)` the key finds x |
| Keyed.UpsertOther | backend/src/domain/repositories/OrderRepository.js:25-28 | `map.set` leaves what every other key finds unchanged |
| Keyed.UpsertShape | backend/src/domain/repositories/OrderRepository.js:25-28 | `map.set` puts the entry at exactly one place and keeps every other entry where it was |
| Keyed.UpsertKeepsUnique | backend/src/domain/repositories/OrderRepository.js:25-28 | `map.set` keeps keys unique |
| Keyed.UpsertStored | backend/src/domain/repositories/OrderRepository.js:34-40 | setting a key to the very object stored under it leaves the map as it was |
| Keyed.DistinctFacts | backend/src/domain/services/PizzaService.js:26 | `[...new Set(s)]` has no duplicates and holds exactly the elements of s |
| Keyed.DistinctKeepsPrefix | backend/src/domain/services/PizzaService.js:58 | deduplicating `a + b`, when a already has no duplicates, keeps a as the prefix |
| Keyed.DistinctOfDistinct | backend/src/domain/services/PizzaService.js:79 | deduplicating a list without duplicates gives it back |
| Allergies.New | backend/src/domain/value-objects/Allergy.js:6-11 | an omitted severity defaults to "moderate" and omitted notes to ""; given values are kept |
| Allergies.Equals | backend/src/domain/value-objects/Allergy.js:25-31 | two allergies are equal exactly when they agree on everything but the notes |
| Allergies.EqualsIsEquivalence | backend/src/domain/value-objects/Allergy.js:25-31 | `equals` is reflexive, symmetric and transitive |
| Allergies.Validate | backend/src/domain/value-objects/Allergy.js:33-48 | the errors are the failing rules' messages in rule order; valid exactly when the name is not blank and the severity is mild, moderate or severe |
| Allergies.ValidateReportsEachRule | backend/src/domain/value-objects/Allergy.js:33-48 | each message is reported exactly when its rule fails |
| Allergies.ToJson | backend/src/domain/value-objects/Allergy.js:50-56 | rebuilding an allergy from the exported fields gives the same allergy |
| Addresses.New | backend/src/domain/value-objects/DeliveryAddress.js:5-13 | an omitted country defaults to "USA" and omitted instructions to ""; the other fields are kept |
| Addresses.Equals | backend/src/domain/value-objects/DeliveryAddress.js:39-48 | two addresses are equal exactly when they agree on everything but the delivery instructions |
| Addresses.ZipShape | backend/src/domain/value-objects/DeliveryAddress.js:65 | a ZIP code is accepted exactly when it is five digits, optionally followed by a dash and four digits |
| Addresses.ZipExamples | backend/src/domain/value-objects/DeliveryAddress.js:65 | "12345" and "12345-6789" are accepted; "invalid", "1234" and "12345-678" are refused |
| Addresses.Validate | backend/src/domain/value-objects/DeliveryAddress.js:50-73 | the errors are the failing rules' messages in rule order; valid exactly when street, city and state are not blank and the ZIP code matches |
| Addresses.MessagesDistinct | backend/src/domain/value-objects/DeliveryAddress.js:53-67 | the four address messages are pairwise different |
| Addresses.ValidateReportsEachRule | backend/src/domain/value-objects/DeliveryAddress.js:50-73 | each of the four messages is reported exactly when its rule fails |
| Addresses.ToString | backend/src/domain/value-objects/DeliveryAddress.js:75-77 | the text starts with the street, ends with the country, and adds exactly seven separator characters |
| Addresses.ToJson | backend/src/domain/value-objects/DeliveryAddress.js:79-88 | rebuilding an address from the exported fields gives the same address |
| Addresses.RoundTripEquals | backend/src/domain/value-objects/DeliveryAddress.js:39-48 | the rebuilt address `equals` the original |
| Payments.MaskCardNumber | backend/src/domain/value-objects/Payment.js:35-40 | an empty number gives null; otherwise the mask prefix followed by at most the last four characters of the number without whitespace |
| Payments.New | backend/src/domain/value-objects/Payment.js:5-13 | the card number is stored only masked, and the CVV only as the token "***" (or null when none was given) |
| Payments.MaskKeepsLastFour | backend/src/domain/value-objects/Payment.js:5-40 | a stored card number keeps at most four characters of the input, and they are its last four non-blank ones |
| Payments.MaskForgetsTheRest | backend/src/domain/value-objects/Payment.js:5-13 | two non-empty card numbers with the same last four characters, and any two non-empty CVVs, build the same payment: masking cannot be undone |
| Payments.MaskExample | backend/src/domain/value-objects/Payment.js:35-40 | "123456" is stored as "**** **** **** 3456" |
| Payments.Validate | backend/src/domain/value-objects/Payment.js:42-67 | the errors are the failing rules' messages in rule order; the three card rules apply only to a method other than cash, so a cash payment is always valid |
| Payments.ValidateReportsEachRule | backend/src/domain/value-objects/Payment.js:42-67 | each of the four messages is reported exactly when its rule fails |
| Payments.ValidCardPayment | backend/src/domain/value-objects/Payment.js:5-67 | a built payment is valid exactly when it is cash, or a known method with a card number, a holder and an MM/YY expiry |
| Payments.ToJson | backend/src/domain/value-objects/Payment.js:69-77 | the export carries every stored field except the CVV |
| Toppings.New | backend/src/domain/entities/Topping.js:5-11 | a given id, name and price are kept; omitted allergens default to none and an omitted `available` to true |
| Toppings.Validate | backend/src/domain/entities/Topping.js:13-28 | the errors are the failing rules' messages in rule order; valid exactly when the name is not blank and the price is at least 0 |
| Toppings.ValidateReportsEachRule | backend/src/domain/entities/Topping.js:13-28 | each message is reported exactly when its rule fails |
| Toppings.AllergensOf | backend/src/domain/services/PizzaService.js:26 | `flatMap(t => t.allergens)` holds exactly the allergens some topping carries |
| Toppings.AllergensOfAppend | backend/src/domain/services/PizzaService.js:26 | collecting allergens splits over a concatenation of topping lists |
| Pizzas.Multiplier | backend/src/domain/entities/Pizza.js:26-33 | medium is 1.3 and large is 1.6; small, and any other size that does not name an inherited object property, is 1.0, so the multiplier is never below 1 |
| Pizzas.ToppingsTotalNonNegative | backend/src/domain/entities/Pizza.js:32 | toppings that each cost 0 or more sum to 0 or more |
| Pizzas.ToppingsTotalAppend | backend/src/domain/entities/Pizza.js:32 | the toppings' sum splits over a concatenation |
| Pizzas.PriceExamples | backend/src/domain/entities/Pizza.js:25-34 | a base of 10.00 costs 10.00 small, 13.00 medium and 16.00 large, and 16.25 medium with toppings of 1.5 and 1.0; 12.00 large costs 19.20 |
| Pizzas.WithTopping | backend/src/domain/entities/Pizza.js:15-19 | a topping whose id is already on the pizza changes nothing; any other topping is appended |
| Pizzas.WithToppingProperties | backend/src/domain/entities/Pizza.js:15-19 | adding keeps topping ids unique, always leaves a topping with the id, and adding the same topping twice is adding it once |
| Pizzas.PriceWithTopping | backend/src/domain/entities/Pizza.js:15-34 | adding a new topping raises the price by its price times the size multiplier; adding one already present leaves the price as it was |
| Pizzas.ToppingsTotalWithout | backend/src/domain/entities/Pizza.js:32 | dropping the topping at one place lowers the sum by exactly its price |
| Pizzas.PriceWithoutTopping | backend/src/domain/entities/Pizza.js:21-34 | removing the one topping with an id lowers the price by its price times the size multiplier |
| Pizzas.RemoveUndoesAdd | backend/src/domain/entities/Pizza.js:15-23 | removing a topping just added gives the original list back |
| Pizzas.HasAllergenIn | backend/src/domain/entities/Pizza.js:36-39 | a pizza has an allergen exactly when it declares it or some topping carries it |
| Pizzas.ValidateFields | backend/src/domain/entities/Pizza.js:41-60 | the errors are the failing rules' messages in rule order; valid exactly when the name is not blank, the base price is above 0 and the size is small, medium or large |
| Pizzas.ValidateReportsEachRule | backend/src/domain/entities/Pizza.js:41-60 | each message is reported exactly when its rule fails |
| Pizzas.Pizza.constructor | backend/src/domain/entities/Pizza.js:5-13 | the id is the given one or the generated one; omitted lists are empty; `createdAt` is the clock |
| Pizzas.Pizza.AddTopping | backend/src/domain/entities/Pizza.js:15-19 | the topping list becomes `WithTopping` of the old one; the allergen list is not touched |
| Pizzas.Pizza.RemoveTopping | backend/src/domain/entities/Pizza.js:21-23 | every topping with the id is removed and the rest keep their order; the allergen list is not touched |
| Customers.EmailIff | backend/src/domain/entities/Customer.js:52-55 | the email check accepts exactly the strings of the form local@domain.last, where each part is non-empty and has neither whitespace nor '@' (the domain may contain dots) |
| Customers.ShapeOfValidEmail | backend/src/domain/entities/Customer.js:52-55 | every accepted email splits into the three parts of the pattern |
| Customers.ValidEmailOfShape | backend/src/domain/entities/Customer.js:52-55 | every string built from the three parts of the pattern is accepted |
| Customers.EmailAccepted | backend/tests/unit/Customer.test.js:95-99 | "test@domain.com" and "user.name@domain.co.uk" are accepted |
| Customers.EmailRejected | backend/tests/unit/Customer.test.js:101-106 | "invalid", "@domain.com" and "user@" are refused |
| Customers.ValidateFields | backend/src/domain/entities/Customer.js:31-50 | the errors are the failing rules' messages in rule order; valid exactly when the name and phone are not blank and the email is accepted |
| Customers.ValidateReportsEachRule | backend/src/domain/entities/Customer.js:31-50 | each message is reported exactly when its rule fails |
| Customers.WithAllergy | backend/src/domain/entities/Customer.js:15-20 | an allergy whose name is already recorded changes nothing; any other allergy is appended |
| Customers.AllergyNamesStayUnique | backend/src/domain/entities/Customer.js:15-25 | adding and removing keep allergy names unique, and the first allergy recorded under a name wins over a later one with the same name |
| Customers.HasAllergyAfter | backend/src/domain/entities/Customer.js:15-29 | after adding, `hasAllergy` holds for the name; after removing a name, it does not |
| Customers.Customer.constructor | backend/src/domain/entities/Customer.js:5-13 | the id is the given one or the generated one; omitted allergies are empty; both timestamps are the clock |
| Customers.Customer.AddAllergy | backend/src/domain/entities/Customer.js:15-20 | the list becomes `WithAllergy` of the old one, and `updatedAt` moves only when the allergy was added; name, email and phone are unchanged |
| Customers.Customer.RemoveAllergy | backend/src/domain/entities/Customer.js:22-25 | every allergy with the name is removed, and `updatedAt` moves even when nothing was removed |
| Orders.AddedItems | backend/src/domain/entities/Order.js:16-32 | a new pizza id appends one item priced at unit price times quantity; a known id keeps the number of items |
| Orders.AddedItemsGet | backend/src/domain/entities/Order.js:16-32 | after an add, the pizza's item holds the summed quantity priced at the unit price, and an item that was already there keeps the pizza it was first added with |
| Orders.AddedItemsGetOther | backend/src/domain/entities/Order.js:16-32 | an add leaves every other pizza's item as it was |
| Orders.AddedItemsKeepsUnique | backend/src/domain/entities/Order.js:16-32 | adding keeps one item per pizza id |
| Orders.AddTwice | backend/tests/unit/Order.test.js:36-42 | adding a pizza with quantity q1 and then q2 at one unit price is the same as adding it once with q1 + q2 |
| Orders.SumPricesAppend | backend/src/domain/entities/Order.js:63-65 | the order total splits over a concatenation of item lists |
| Orders.SumPricesUpdate | backend/src/domain/entities/Order.js:63-65 | replacing one item changes the total by the difference of the two items' prices |
| Orders.TotalAfterAddNew | backend/src/domain/entities/Order.js:16-65 | adding a pizza not yet in the order raises the total by unit price times quantity |
| Orders.TotalAfterAddExisting | backend/src/domain/entities/Order.js:16-65 | adding more of a pizza already in the order replaces that item's old price by the unit price times the summed quantity |
| Orders.TotalExamples | backend/tests/unit/Order.test.js:92-115 | two medium pizzas of base 10.00 total 26.00; one of them plus a large of base 12.00 total 32.20; an empty order totals 0 |
| Orders.QuantitySet | backend/src/domain/entities/Order.js:39-51 | an absent id changes nothing; a quantity of 0 or less removes the item; any other quantity keeps the number of items |
| Orders.NonPositiveQuantityRemoves | backend/src/domain/entities/Order.js:39-51 | setting a quantity of 0 or less is exactly `removeItem`, whether or not the id is present |
| Orders.QuantitySetGet | backend/src/domain/entities/Order.js:39-51 | after a positive update, the item has that quantity and is priced at its unit price times it; every other pizza's item is as it was |
| Orders.ValidateFields | backend/src/domain/entities/Order.js:86-109 | the errors are the failing rules' messages in rule order; valid exactly when there is a customer id, at least one item, an address and a payment |
| Orders.ValidateReportsEachRule | backend/src/domain/entities/Order.js:86-109 | each message is reported exactly when its rule fails |
| Orders.ConfirmStep | backend/src/domain/entities/Order.js:67-75 | confirming succeeds exactly when the order is valid and leads to confirmed; on failure the message lists every broken rule, joined by ", " |
| Orders.CancelStep | backend/src/domain/entities/Order.js:77-84 | cancelling fails exactly from delivered, with its message; from every other status it leads to cancelled |
| Orders.TransitionFacts | backend/src/domain/entities/Order.js:67-84 | confirming does not depend on the current status, so even a cancelled order is confirmed again once valid; cancelling twice is cancelling once |
| Orders.Order.constructor | backend/src/domain/entities/Order.js:5-14 | the id is the given one or the generated one; omitted items are empty; the status is pending; both timestamps are the clock |
| Orders.Order.AddItem | backend/src/domain/entities/Order.js:16-32 | the items become `AddedItems` of the old ones at the pizza's current price; `updatedAt` moves; status, address and payment are unchanged |
| Orders.Order.RemoveItem | backend/src/domain/entities/Order.js:34-37 | every item with the pizza id is removed, and `updatedAt` moves even when nothing was removed |
| Orders.Order.UpdateItemQuantity | backend/src/domain/entities/Order.js:39-51 | an absent id changes nothing, not even the timestamp; otherwise the items become `QuantitySet`, re-priced with the pizza the item holds |
| Orders.Order.SetDeliveryAddress | backend/src/domain/entities/Order.js:53-56 | the address is set and `updatedAt` moves; nothing else changes |
| Orders.Order.SetPayment | backend/src/domain/entities/Order.js:58-61 | the payment is set and `updatedAt` moves; nothing else changes |
| Orders.Order.Confirm | backend/src/domain/entities/Order.js:67-75 | follows `ConfirmStep`; on failure the order is left exactly as it was |
| Orders.Order.Cancel | backend/src/domain/entities/Order.js:77-84 | follows `CancelStep`; on failure the order is left exactly as it was |
| OrderRepositories.WithStatus | backend/src/domain/repositories/OrderRepository.js:21-23 | the status filter keeps exactly the orders now in that status, each one a stored order |
| OrderRepositories.OfCustomer | backend/src/domain/repositories/OrderRepository.js:17-19 | the customer filter keeps exactly that customer's orders, each one a stored order |
| OrderRepositories.OrderRepository.constructor | backend/src/domain/repositories/OrderRepository.js:5-7 | the store starts empty, with unique keys |
| OrderRepositories.OrderRepository.FindById | backend/src/domain/repositories/OrderRepository.js:9-11 | null exactly when no order has the id; otherwise the stored order with that id itself |
| OrderRepositories.OrderRepository.FindByCustomerId | backend/src/domain/repositories/OrderRepository.js:17-19 | exactly the stored orders of the customer |
| OrderRepositories.OrderRepository.FindByStatus | backend/src/domain/repositories/OrderRepository.js:21-23 | exactly the stored orders now in the status |
| OrderRepositories.OrderRepository.Save | backend/src/domain/repositories/OrderRepository.js:25-28 | keys stay unique, the order is found under its id afterwards, and the store is the old one with that key upserted |
| OrderRepositories.OrderRepository.Update | backend/src/domain/repositories/OrderRepository.js:34-40 | an unknown id is refused with "Order not found" and the store is unchanged; a known id is saved |
| OrderRepositories.OrderRepository.Delete | backend/src/domain/repositories/OrderRepository.js:30-32 | answers whether the id was stored; afterwards it is not, and every other order keeps its place |
| CustomerRepositories.Encrypt | backend/src/domain/repositories/CustomerRepository.js:51-57 | every entry comes out tagged and keeps its name; an Allergy value becomes its exported fields and an already tagged record is copied |
| CustomerRepositories.EncryptAll | backend/src/domain/repositories/CustomerRepository.js:48-59 | the list keeps its length and order and each entry is tagged |
| CustomerRepositories.EncryptAllFacts | backend/src/domain/repositories/CustomerRepository.js:48-59 | tagging loses no allergy (its fields rebuild it), tagging twice is tagging once, and unique allergy names stay unique |
| CustomerRepositories.DecryptAll | backend/src/domain/repositories/CustomerRepository.js:61-64 | decrypting hands the tagged list back unchanged, so the allergies never become Allergy values again |
| CustomerRepositories.FirstWithEmail | backend/src/domain/repositories/CustomerRepository.js:14-16 | null exactly when no customer has that email; otherwise the first customer in insertion order that has it |
| CustomerRepositories.CustomerRepository.constructor | backend/src/domain/repositories/CustomerRepository.js:6-8 | the store starts empty, with unique keys |
| CustomerRepositories.CustomerRepository.FindById | backend/src/domain/repositories/CustomerRepository.js:10-12 | null exactly when no customer has the id; otherwise the stored customer with that id itself |
| CustomerRepositories.CustomerRepository.Save | backend/src/domain/repositories/CustomerRepository.js:22-29 | a non-empty allergy list is tagged in place and nothing else of the customer changes; the customer is upserted under its id and keys stay unique |
| CustomerRepositories.CustomerRepository.Update | backend/src/domain/repositories/CustomerRepository.js:35-45 | an unknown id is refused with "Customer not found" before anything is touched; a known id is saved |
| CustomerRepositories.CustomerRepository.Delete | backend/src/domain/repositories/CustomerRepository.js:31-33 | answers whether the id was stored; afterwards it is not, and every other customer keeps its place |
| PizzaRepositories.Named | backend/src/domain/repositories/PizzaRepository.js:48-52 | the search keeps exactly the pizzas whose lower-cased name contains the lower-cased query, never more than the catalogue holds |
| PizzaRepositories.NamedOne | backend/src/domain/repositories/PizzaRepository.js:48-52 | a single pizza is listed exactly when its name matches |
| PizzaRepositories.NamedAppend | backend/src/domain/repositories/PizzaRepository.js:48-52 | the search of two lists joined is the two searches joined, so the result keeps the catalogue's order |
| PizzaRepositories.EmptyQueryListsAll | backend/src/domain/repositories/PizzaRepository.js:48-52 | the empty query lists the whole catalogue in order |
| PizzaRepositories.QueryCaseIgnored | backend/src/domain/repositories/PizzaRepository.js:48-52 | lower-casing the query does not change what the search finds |
| PizzaRepositories.SamplePrices | backend/src/domain/repositories/PizzaRepository.js:10-29 | the seeded Margherita, Pepperoni and Vegetarian cost 11.687, 16.237 and 15.587 |
| PizzaRepositories.PizzaRepository.constructor | backend/src/domain/repositories/PizzaRepository.js:5-29 | the catalogue holds exactly the three seeded medium pizzas, in seeding order, with their names, base prices, toppings and allergens, under unique generated ids |
| PizzaRepositories.PizzaRepository.SaveAll | backend/src/domain/repositories/PizzaRepository.js:26-28 | three saves of distinct ids into the empty catalogue store the three pizzas in that order |
| PizzaRepositories.PizzaRepository.FindById | backend/src/domain/repositories/PizzaRepository.js:31-33 | null exactly when no pizza has the id; otherwise the stored pizza with that id itself |
| PizzaRepositories.PizzaRepository.FindByName | backend/src/domain/repositories/PizzaRepository.js:48-52 | exactly the stored pizzas whose name matches case-insensitively |
| PizzaRepositories.PizzaRepository.Save | backend/src/domain/repositories/PizzaRepository.js:39-42 | keys stay unique, the pizza is found under its id afterwards, and the catalogue is the old one with that key upserted |
| PizzaRepositories.PizzaRepository.Delete | backend/src/domain/repositories/PizzaRepository.js:44-46 | answers whether the id was stored; afterwards it is not, and every other pizza keeps its place |
| ToppingRepositories.Samples | backend/src/domain/repositories/ToppingRepository.js:10-27 | the ten seeded toppings, each under its generated id and available |
| ToppingRepositories.SamplesFacts | backend/src/domain/repositories/ToppingRepository.js:10-27 | every seeded topping passes topping validation |
| ToppingRepositories.NamedIsValid | backend/src/domain/entities/Topping.js:13-28 | a topping whose name starts with a visible character and whose price is not negative is valid |
| ToppingRepositories.AvailableOf | backend/src/domain/repositories/ToppingRepository.js:37-39 | the filter keeps exactly the available toppings, each one stored |
| ToppingRepositories.ToppingRepository.constructor | backend/src/domain/repositories/ToppingRepository.js:5-27 | saving the samples one by one leaves exactly the ten samples, in seeding order, under unique keys |
| ToppingRepositories.ToppingRepository.FindById | backend/src/domain/repositories/ToppingRepository.js:29-31 | null exactly when no topping has the id; otherwise the stored topping with that id |
| ToppingRepositories.ToppingRepository.FindAvailable | backend/src/domain/repositories/ToppingRepository.js:37-39 | exactly the stored toppings marked available |
| ToppingRepositories.ToppingRepository.Save | backend/src/domain/repositories/ToppingRepository.js:41-44 | keys stay unique, the topping is found under its id afterwards, and the catalogue is the old one with that key upserted |
| ToppingRepositories.ToppingRepository.Delete | backend/src/domain/repositories/ToppingRepository.js:46-48 | answers whether the id was stored; afterwards it is not, and every other topping keeps its place |
| PizzaServices.Resolve | backend/src/domain/services/PizzaService.js:13-23 | on success, one topping per id, in id order, each the available catalogue topping with that id |
| PizzaServices.ResolveOutcome | backend/src/domain/services/PizzaService.js:13-23 | gathering succeeds exactly when every id names an available catalogue topping; otherwise it fails with the error of the first id that does not: "Topping <id> not found" or "Topping <name> is not available" |
| PizzaServices.ResolveErrSticks | backend/src/domain/services/PizzaService.js:14-21 | once the ids read so far fail, the whole list fails with that same error |
| PizzaServices.CreatedAllergensFacts | backend/src/domain/services/PizzaService.js:26-27 | a custom pizza lists exactly the base allergens and its toppings' allergens; since the base allergens are pushed after deduplication, one dairy topping gives "dairy", "dairy", "gluten" |
| PizzaServices.AddedAllergensFacts | backend/src/domain/services/PizzaService.js:56-59 | after adding a topping the list holds exactly the old allergens and the topping's, keeps the old ones in front, and stays free of duplicates when it was |
| PizzaServices.RecomputedAllergensFacts | backend/src/domain/services/PizzaService.js:72-79 | after a removal the list is exactly the base allergens followed by the remaining toppings' allergens, without duplicates; an allergen only the removed topping carried is gone |
| PizzaServices.ConflictsOf | backend/src/domain/services/PizzaService.js:106 | exactly the asked-about allergens the pizza has, never more of them than were asked about |
| PizzaServices.ConflictsOfOne | backend/src/domain/services/PizzaService.js:106 | a single allergen is kept exactly when the pizza has it |
| PizzaServices.ConflictsOfAppend | backend/src/domain/services/PizzaService.js:106 | the conflicts of two lists joined are the two lists' conflicts joined, so input order and repeated allergens are kept |
| PizzaServices.PizzaService.constructor | backend/src/domain/services/PizzaService.js:5-8 | the service uses the given pizza and topping stores |
| PizzaServices.PizzaService.ResolveToppings | backend/src/domain/services/PizzaService.js:13-23 | the loop returns exactly what `Resolve` specifies, stopping at the first unusable id |
| PizzaServices.PizzaService.CreateCustomPizza | backend/src/domain/services/PizzaService.js:10-37 | a topping error comes first and stores nothing; then an invalid pizza is refused with "Invalid pizza: " and its errors, storing nothing; otherwise a new pizza with the resolved toppings and their allergens is stored under the generated id |
| PizzaServices.PizzaService.Build | backend/src/domain/services/PizzaService.js:29-36 | an invalid pizza is refused with "Invalid pizza: " and its errors and nothing is stored; a valid one is stored with the given toppings and the created allergens |
| PizzaServices.PizzaService.AddToppingToPizza | backend/src/domain/services/PizzaService.js:39-62 | refused with "Pizza not found", then "Topping not found", then "Topping <name> is not available", each leaving the pizza as it was; otherwise it succeeds on the stored pizza itself, whose toppings gain the topping and whose allergens gain the topping's |
| PizzaServices.PizzaService.RemoveToppingFromPizza | backend/src/domain/services/PizzaService.js:64-82 | refused with "Pizza not found" only; otherwise the stored pizza loses every topping with the id and its allergens are rebuilt from what remains |
| PizzaServices.PizzaService.AllPizzas | backend/src/domain/services/PizzaService.js:84-86 | every pizza the store can find is listed |
| PizzaServices.PizzaService.PizzaById | backend/src/domain/services/PizzaService.js:88-94 | "Pizza not found" exactly when the store has no such id; otherwise the stored pizza with that id |
| PizzaServices.PizzaService.AllToppings | backend/src/domain/services/PizzaService.js:96-98 | exactly the catalogue toppings marked available |
| PizzaServices.PizzaService.CheckAllergens | backend/src/domain/services/PizzaService.js:100-111 | "Pizza not found" exactly when the store has no such id; otherwise the conflicts are the `ConflictsOf` filter of the asked-about allergens, in input order with repeats, and `hasConflicts` holds exactly when one of them is on the pizza |
| OrderServices.ConflictFacts | backend/src/domain/services/OrderService.js:116-128 | a customer with no allergies never conflicts, so the length guard changes nothing; adding a pizza that carries one of the customer's allergens makes the order conflict |
| OrderServices.OrderService.constructor | backend/src/domain/services/OrderService.js:5-9 | the service uses the given order, pizza and customer stores |
| OrderServices.OrderService.WriteBack | backend/src/domain/repositories/OrderRepository.js:34-40 | writing back a stored order always succeeds and leaves every entry of the store where it was |
| OrderServices.OrderService.CreateOrder | backend/src/domain/services/OrderService.js:11-21 | "Customer not found" for an unknown customer, storing nothing; otherwise a new empty pending order for the customer, with no address and no payment and both timestamps the clock, is stored under the generated id |
| OrderServices.OrderService.AddPizzaToOrder | backend/src/domain/services/OrderService.js:23-36 | "Order not found", then "Pizza not found", each leaving the order as it was; otherwise it succeeds and the stored order's items gain the pizza at its current price, quantity 1 when left out, while its address and payment stay |
| OrderServices.OrderService.RemovePizzaFromOrder | backend/src/domain/services/OrderService.js:38-46 | "Order not found" only; otherwise every item of the pizza is gone from the stored order, whose status, address and payment stay |
| OrderServices.OrderService.UpdatePizzaQuantity | backend/src/domain/services/OrderService.js:48-56 | "Order not found" only; an item not in the order leaves the items and `updatedAt` alone; otherwise the item is removed or re-quantified and re-priced with the pizza it holds; status, address and payment stay |
| OrderServices.OrderService.SetDeliveryAddress | backend/src/domain/services/OrderService.js:58-82 | "Order not found", then an invalid address is refused with "Invalid delivery address: " and its errors, leaving the order alone; otherwise it succeeds, the order gets the address built with its defaults, and its status and payment stay |
| OrderServices.OrderService.SetPayment | backend/src/domain/services/OrderService.js:84-108 | "Order not found", then an invalid payment is refused with "Invalid payment: " and its errors, leaving the order alone; otherwise it succeeds, the order gets the masked payment, and its status and address stay |
| OrderServices.OrderService.ConfirmOrder | backend/src/domain/services/OrderService.js:110-132 | "Order not found"; then an order with an item whose pizza carries one of its known customer's allergens is refused; then the entity's confirm decides, and only success changes the order, whose items, address and payment stay |
| OrderServices.OrderService.CancelOrder | backend/src/domain/services/OrderService.js:134-142 | "Order not found"; otherwise a delivered order is refused and left alone, and every other one becomes cancelled with its items, address and payment kept |
| OrderServices.OrderService.OrderTotal | backend/src/domain/services/OrderService.js:144-151 | "Order not found" exactly when the store has no such id; otherwise the sum of the order's item prices |
| CustomerServices.AllergyOf | backend/src/domain/services/CustomerService.js:36-40 | the allergy keeps the sent name and notes; a left-out severity becomes "moderate" |
| CustomerServices.DefaultSeverityIsValid | backend/src/domain/services/CustomerService.js:36-45 | an allergy sent without a severity is refused exactly when its name is missing |
| CustomerServices.StoredKeepsNames | backend/src/domain/repositories/CustomerRepository.js:40-42 | writing a customer back keeps which allergy names it holds, and tagging twice is tagging once |
| CustomerServices.PlacedEmailStaysUnique | backend/src/domain/services/CustomerService.js:13-25 | storing a customer whose email no one holds keeps stored emails unique |
| CustomerServices.EmailSetStaysUnique | backend/src/domain/services/CustomerService.js:85-92 | giving the stored customer an email no other customer holds keeps stored emails unique |
| CustomerServices.CustomerService.constructor | backend/src/domain/services/CustomerService.js:5-7 | the service uses the given customer store |
| CustomerServices.CustomerService.WriteBack | backend/src/domain/repositories/CustomerRepository.js:35-45 | writing back a stored customer always succeeds, leaves every entry where it was, and tags its allergies |
| CustomerServices.CustomerService.CreateCustomer | backend/src/domain/services/CustomerService.js:9-26 | a taken email is refused before validation, then an invalid customer with "Invalid customer: " and its errors, both storing nothing; otherwise a new customer with no allergies is stored; stored emails that were unique stay unique |
| CustomerServices.CustomerService.Register | backend/src/domain/services/CustomerService.js:18-25 | an invalid customer is refused and nothing is stored; a valid one is stored with no allergies; unique emails stay unique |
| CustomerServices.CustomerService.SaveNew | backend/src/domain/services/CustomerService.js:25 | saving a new customer whose email no one holds upserts it and keeps stored emails unique |
| CustomerServices.CustomerService.AddAllergy | backend/src/domain/services/CustomerService.js:28-49 | "Customer not found", then an invalid allergy is refused with "Invalid allergy: " and its errors, leaving the customer alone; otherwise it succeeds, the stored customer has the allergy, its list is the tagged list with the allergy added unless its name was there, `updatedAt` moves only then, and name, email and phone stay |
| CustomerServices.CustomerService.RemoveAllergy | backend/src/domain/services/CustomerService.js:51-59 | "Customer not found" only; otherwise the stored customer no longer has the allergy, its list is the rest, tagged, and name, email and phone stay |
| CustomerServices.CustomerService.CustomerAllergies | backend/src/domain/services/CustomerService.js:61-68 | "Customer not found" exactly when the store has no such id; otherwise the stored list, tagged entries included |
| CustomerServices.CustomerService.CustomerById | backend/src/domain/services/CustomerService.js:70-76 | "Customer not found" exactly when the store has no such id; otherwise the stored customer with that id |
| CustomerServices.CustomerService.UpdateCustomer | backend/src/domain/services/CustomerService.js:78-103 | "Customer not found"; the name is set even when a later step fails; an email held by another customer is refused with "Email already in use"; otherwise email, phone and timestamp are set, and an invalid result is refused with them kept |
| CustomerServices.CustomerService.UpdateContact | backend/src/domain/services/CustomerService.js:85-102 | the steps after the name: the email clash check, then phone, timestamp, validation and write-back, with the same outcomes |
| CustomerServices.CustomerService.Finish | backend/src/domain/services/CustomerService.js:93-102 | phone and timestamp are set whatever follows; an invalid customer is refused, a valid one written back with its allergies tagged |
| CustomerServices.CustomerService.ChangeEmail | backend/src/domain/services/CustomerService.js:85-92 | refused exactly when another customer holds the email, changing nothing; otherwise the customer takes it and stored emails that were unique stay unique |
| Carts.AmountOf | frontend/src/app/services/CartService.js:16-20 | a left-out or zero quantity counts as one; any other, a negative one included, is taken as it is |
| Carts.Added | frontend/src/app/services/CartService.js:10-25 | a new pizza id appends one item; a known one keeps the number of items |
| Carts.AddedCount | frontend/src/app/services/CartService.js:10-25 | adding raises the item count by exactly the amount added |
| Carts.AddedTotal | frontend/src/app/services/CartService.js:10-25 | adding raises the total by the amount times the unit price of the pizza the item holds |
| Carts.AddedGet | frontend/src/app/services/CartService.js:10-25 | after an add, the pizza's item holds the summed quantity and the pizza first added; every other item is as it was |
| Carts.AddedKeepsUnique | frontend/src/app/services/CartService.js:10-25 | adding keeps one item per pizza id |
| Carts.AddTwice | frontend/src/app/services/CartService.js:10-25 | adding a pizza twice is adding it once with the summed amount |
| Carts.RemoveUndoesAdd | frontend/src/app/services/CartService.js:10-32 | removing a pizza after adding it leaves what removing it before the add would |
| Carts.RemovedFacts | frontend/src/app/services/CartService.js:27-32 | no item of the pizza is left, every other item is as it was, count and total drop by exactly the removed items' shares, and one item per pizza id stays so |
| Carts.SumsRemoveKey | frontend/src/app/services/CartService.js:53-63 | the removed and the kept items share the count and the total between them |
| Carts.QuantitySet | frontend/src/app/services/CartService.js:34-47 | an absent id changes nothing; a quantity of 0 or less removes the pizza; any other keeps the number of items |
| Carts.QuantitySetFacts | frontend/src/app/services/CartService.js:34-47 | after a positive update the item has that quantity and every other item is as it was |
| Carts.QuantitySetCount | frontend/src/app/services/CartService.js:34-57 | a positive update moves the item count by the new quantity less the old |
| Carts.QuantitySetKeepsUnique | frontend/src/app/services/CartService.js:34-47 | updating a quantity keeps one item per pizza id |
| Carts.NonPositiveQuantityRemoves | frontend/src/app/services/CartService.js:39-41 | a quantity of 0 or less is exactly `removeItem`, whether or not the pizza is in the cart |
| Carts.Cart.constructor | frontend/src/app/services/CartService.js:4-8 | the cart starts empty with no customer and no order; count and total are 0 |
| Carts.Cart.AddItem | frontend/src/app/services/CartService.js:10-25 | the items become `Added` of the old ones; count and total move as `AddedCount` and `AddedTotal` say; one item per pizza id is kept; the ids are untouched |
| Carts.Cart.RemoveItem | frontend/src/app/services/CartService.js:27-32 | no item of the pizza is left; count and total drop by the removed shares; the ids are untouched |
| Carts.Cart.UpdateQuantity | frontend/src/app/services/CartService.js:34-47 | the items become `QuantitySet` of the old ones; a positive update moves the count by the difference; one item per pizza id is kept |
| Carts.Cart.Clear | frontend/src/app/services/CartService.js:65-69 | items and order id are emptied, count and total are 0, and the customer id is kept |
| Carts.Cart.SetOrderId | frontend/src/app/services/CartService.js:71-77 | `getOrderId` returns what was set; nothing else changes |
| Carts.Cart.SetCustomerId | frontend/src/app/services/CartService.js:79-85 | `getCustomerId` returns what was set; nothing else changes |

Helpers that stand for JavaScript built-ins (`Keyed.Get` for `find`, `Keyed.RemoveKey` and
`Keyed.WithKey` for `filter`, `Keyed.Upsert` for `Map.set`, `Keyed.Distinct` for
`[...new Set(…)]`, `Text.Join`, `Text.Trim`, `Text.StripSpaces`, `Text.ToLower`) carry
only small contracts of their own. `Ids.ChooseId` (the `id || uuidv4()` default) and
`Reports.FromErrors` (the `{ isValid, errors }` object every `validate()` returns) are
plain definitions without contracts; their callers see their bodies. Their properties are stated by the `Keyed` and `Text`
lemmas listed above.

## Left out

- HTTP controllers, routes, middleware, the Angular UI and the frontend's HTTP service wrappers are not part of this model. They only forward to the operations modelled here.
- `broadcastUpdate` in the cart raises an Angular `$rootScope` event and changes no cart state. It is left out, and the cart methods that call it are modelled without it.
- Every repository and service method is `async` in the source. The model runs each one to completion without interleaving, so lost updates between concurrent requests are not modelled.
- `uuidv4()` and `new Date()` are not modelled. The generated id and the clock reading are parameters (`freshId`, `now`), so the model does not promise that generated ids are distinct unless a precondition asks for it.
- Prices are real numbers, not IEEE doubles, so rounding is not modelled. For example 8.99 × 1.3 is exactly 11.687 here.
- JavaScript type coercion is not modelled. Inputs of the wrong type are out of scope: a number where a string is expected, an `undefined` or non-numeric price, a `NaN` base price.
- The `instanceof` checks in the value objects' `equals` always hold here, because both sides have the same Dafny type.
- The `bcrypt` import of the customer store is never used by the source, so nothing models it. The "encryption" is the tagging the source actually does.
- The cart keeps, for each pizza, its id and the price its `calculatePrice()` returns when the pizza is added. It does not keep the live pizza object, so a price change made later to that object is not seen by `getTotal`.
- Whitespace (`\s`, `trim`) and lower-casing cover ASCII characters only. Unicode spaces and non-ASCII letters are not modelled.
- `findAll`, `getItems`, `getItemCount`, `getTotal`, `getOrderId`, `getCustomerId`, `calculatePrice`, `calculateTotal`, `hasAllergen` and `hasAllergy` are plain accessors. They have no contract of their own; the lemmas and methods above state their properties.
- PizzaServices.PizzaService.AllPizzas: states only that every stored pizza is listed, not that the list is exactly the store's entries in order.
- Pizzas.Multiplier: a size naming an inherited object property (`constructor`, `toString`, `valueOf`, `__proto__`) makes the source's `calculatePrice()` return NaN, which reals cannot represent; the model prices such a size like a small one. `validate()` refuses such sizes (backend/src/domain/entities/Pizza.js:52), so `createCustomPizza` never stores one.
- Customers.EmailIff: the regular expression's `\s` is taken as ASCII whitespace.
