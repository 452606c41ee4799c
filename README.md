# Car-transport booking: a verified model of the core

A Dafny model of the deterministic core of a car-transport booking
application: a NestJS/TypeORM backend and a React frontend.

It covers six areas:

- **The quote engine.** The constant tables (fixed routes, default rates,
  insurance rate, daily norm, admin credentials) and the distance
  resolver. The resolver tries the fixed-route table, then the offline
  matrix, then the routing service, then a 1000 km fallback. The price
  calculator has a fixed-price branch and a metered branch: a
  month-indexed rate with a 1000 km threshold, 10% insurance,
  ceiling-based durations and an arrival date.
- **The order registry and the payment stub.** `calculate`, `create`,
  `findAll` (with its filters, date window, ordering and paging),
  `findOne`, `updatePaymentStatus` and `processPayment`.
- **The reference tables.** Cities refuse deletion while orders refer to
  them. Tariffs hold one row per month. Users have unique phones. The
  seeder can be run again safely.
- **The admin credential token.** It is the base64 (section 4 of
  RFC 4648) of the UTF-8 of `login:password`. The guard decodes it,
  splits it on `:` and compares the fields.
- **The validators and formatters.** The backend phone pattern, the
  tariff DTO bounds, the frontend phone mask and field rules, the "+7"
  normaliser, and the order-form rules.
- **The admin dashboard.** Its request parameters and its client-side
  search.

Entities that the source updates in place are classes:

- `Users.UserTable`, `Cities.CityTable`, `Tariffs.TariffTable` and
  `Orders.OrderTable` each hold `rows: seq<…>` and an id counter.
- Their methods state the whole new state.
- Each keeps `Valid()`: unique ids, plus a unique phone, name or month
  where the storage schema declares one.

Queries, calculations and formatters are pure functions. The seeder's
loops are `for` loops with invariants. The page handlers are methods on
the users table.

Modelling choices:

- **Money.** Prices and rates are `real`, so insurance is exactly a
  tenth of transport.
- **Distances.** Distances are whole kilometres (`nat`).
- **Ids.** The generated UUID keys are `nat` values drawn from a counter.
- **Dates.** Dates are valid Gregorian `year, month, day` triples.
- **Outside inputs.** The clock (`createdAt`, the form's "today"), the
  environment and the routing service's reply are parameters.
- **Errors.** They follow the source's exceptions: `NotFound`,
  `BadRequest(count)`, `Conflict` and `Unauthorized`.
- **Storage constraints.** The unique city name, the unique tariff month
  and the order's foreign key to its user are not checked by the
  services. They surface as `StorageViolation` from the table's save,
  and the table is left unchanged.
- **Row order.** Where the database is free to order rows (ties, an
  unknown `sortBy`), the model keeps table order with a stable sort.

Behaviour of the source worth knowing, proved here:

- **A ':' in the credentials.** If the configured login or password
  contains ':', the token that `login` issues is refused by the guard
  (`Auth.IssuedTokenAcceptedIff`).
- **Key collisions.** The route key is the two names joined by '-'.
  "Москва-Санкт" to "Петербург" therefore gets the 700 km of Москва to
  Санкт-Петербург (`Distance.KeyCollision`).
- **The trunk prefix.** A number typed with the domestic trunk prefix 8
  ("8 999 123-45-67") goes to the server as "+789991234567"
  (`PhoneFormat.TrunkPrefixKept`).
- **One date bound.** Picking only one of the dashboard's "from" and
  "to" dates filters nothing by date (`AdminDashboard.OneBoundFiltersNothing`).

## Model

| member | source | states |
|---|---|---|
| Constants.EnvOr | backend/src/config/constants.ts:1-4 | an unset or empty variable gives the default, a set one gives its value |
| Constants.AdminCredentials | backend/src/config/constants.ts:1-4 | the credentials are "admin"/"admin123" unless the environment sets them; each set variable is used as given |
| Constants.FixedRouteKeyNames | backend/src/config/constants.ts:6-11 | a pair of names whose joined key is in the fixed-route table is one of the four listed pairs |
| Constants.FixedPairKeys | backend/src/config/constants.ts:6-11 | the four listed pairs build exactly the four table keys |
| Constants.FixedRoutesSymmetric | backend/src/config/constants.ts:6-11 | every fixed route has its reverse in the table, at the same positive price |
| Constants.FixedRoutesTable | backend/src/config/constants.ts:6-11 | four keys, all prices positive: Москва↔Сочи 200000, Бишкек↔Москва 350000 |
| Distance.JsRound | backend/src/shared/utils/distance-api.util.ts:50 | Math.round: the result is within half a unit of the argument, halves rounding up |
| Distance.GetDistance | backend/src/shared/utils/distance-api.util.ts:16-59 | the resolver never fails; its answer is positive unless the routing service reported under 500 m |
| Distance.MatrixEntriesPositive | backend/src/shared/utils/distance-api.util.ts:5-14 | every matrix entry is positive, so its truthiness test selects exactly the listed keys |
| Distance.MatrixIsSymmetric | backend/src/shared/utils/distance-api.util.ts:5-14 | eight entries, each route the same length in both directions |
| Distance.DecidedByKey | backend/src/shared/utils/distance-api.util.ts:21-30 | two name pairs with the same joined key get the same tabulated answer |
| Distance.FixedRouteUsesMatrix | backend/src/shared/utils/distance-api.util.ts:22-25 | a fixed route takes its matrix distance: Москва-Сочи is 1600 km and Бишкек-Москва 3500 km, not 1000 |
| Distance.MatrixHit | backend/src/shared/utils/distance-api.util.ts:28-30 | a key outside the fixed table but in the matrix gets the tabulated value, whatever the service would say |
| Distance.UnknownRoute | backend/src/shared/utils/distance-api.util.ts:32-58 | for other keys: the rounded service distance when a key is set and the reply is non-zero, otherwise 1000 |
| Distance.OfflineIsPositive | backend/src/shared/utils/distance-api.util.ts:20-58 | without an API key every answer is a positive whole number of km |
| Distance.KeyCollision | backend/src/shared/utils/distance-api.util.ts:21 | the joined key conflates "Москва-Санкт"/"Петербург" with "Москва"/"Санкт-Петербург" (700 km) |
| PriceCalculator.CeilDiv | backend/src/modules/orders/calculators/price-calculator.service.ts:40 | Math.ceil of a quotient: the least whole number whose multiple covers the dividend |
| PriceCalculator.HoursAtNorm | backend/src/modules/orders/calculators/price-calculator.service.ts:76 | durationHours is the fewest whole hours that cover the distance at 1000 km per 24 hours |
| PriceCalculator.DaysForHours | backend/src/modules/orders/calculators/price-calculator.service.ts:77 | durationDays is the fewest whole days that cover the hours |
| PriceCalculator.Priced | backend/src/modules/orders/calculators/price-calculator.service.ts:38-43 | insurance is a tenth of transport, the total is their sum, and arrival is the start date plus durationDays days |
| PriceCalculator.FixedQuote | backend/src/modules/orders/calculators/price-calculator.service.ts:36-55 | the fixed branch: 1000 km, no rate, the table price, one day of 24 hours, insurance a tenth, arrival one day after the start |
| PriceCalculator.MeteredQuote | backend/src/modules/orders/calculators/price-calculator.service.ts:70-91 | the metered branch: distance times rate, hours and days at the daily norm, insurance a tenth, arrival after the days |
| PriceCalculator.Calculate | backend/src/modules/orders/calculators/price-calculator.service.ts:27-92 | fixed branch iff the key is in the table (distance 1000, rate 0, table price, 1 day, 24 hours); otherwise distance times the month's rate; insurance, total and arrival in both |
| PriceCalculator.FixedPriceIsTruthy | backend/src/modules/orders/calculators/price-calculator.service.ts:34-36 | the truthiness test on the fixed price holds exactly for the table's keys |
| PriceCalculator.DurationsAreCeilings | backend/src/modules/orders/calculators/price-calculator.service.ts:40-77 | in both branches the hours and days are the least that cover the distance and the hours |
| PriceCalculator.MoscowSochi | backend/src/modules/orders/calculators/price-calculator.service.ts:33-55 | Москва to Сочи on any date: 200000 transport, 20000 insurance, 220000 total, 1 day, 24 hours, fixed |
| PriceCalculator.DaysAreKmCeiling | backend/src/modules/orders/calculators/price-calculator.service.ts:76-77 | the nested ceilings equal one ceiling: durationDays = ⌈distance / 1000⌉ |
| PriceCalculator.QuoteInvariants | backend/src/modules/orders/calculators/price-calculator.service.ts:71-79 | on every quote the days cover the hours, the total is 1.1 times transport, and arrival is not before the start |
| PriceCalculator.MeteredRate | backend/src/modules/orders/calculators/price-calculator.service.ts:62-68 | off the fixed table the start month's row prices the trip, under-1000 up to and including 1000 km, over-1000 beyond |
| PriceCalculator.ZeroRateFallsBack | backend/src/modules/orders/calculators/price-calculator.service.ts:65-68 | with the rates read as numbers, a zero rate is replaced by the default 150 or 100, so the applied rate is never zero |
| PriceCalculator.MissingTariffUsesDefaults | backend/src/modules/orders/calculators/price-calculator.service.ts:65-68 | a month without a row uses 150 up to 1000 km and 100 beyond |
| PriceCalculator.ZeroRateRowIsNoRow | backend/src/modules/tariffs/dto/create-tariff.dto.ts:6-19 | zero rates pass the DTO exactly when the month is in 1..12, and, with the rates read as numbers, such a row prices as if the month had none |
| Calendar.DaysInMonth | backend/src/modules/orders/calculators/price-calculator.service.ts:42-43 | months have 28 to 31 days; February has 29 exactly in leap years |
| Calendar.LeIsTotalOrder | backend/src/modules/orders/orders.service.ts:102-112 | the date order is reflexive, total, antisymmetric and transitive |
| Calendar.NextDay | backend/src/modules/orders/calculators/price-calculator.service.ts:42-43 | setDate(getDate() + 1) gives the immediate successor: later than the date, and no date lies between |
| Calendar.AddDays | backend/src/modules/orders/calculators/price-calculator.service.ts:78-79 | adding days never goes back, and adding a positive number goes forward |
| Calendar.AddDaysAdditive | backend/src/modules/orders/calculators/price-calculator.service.ts:78-79 | adding a days then b days is adding a + b days |
| Calendar.AddDaysMonotonic | backend/src/modules/orders/calculators/price-calculator.service.ts:78-79 | more days give a date no earlier |
| Calendar.AddOneDay | backend/src/modules/orders/calculators/price-calculator.service.ts:42-43 | adding one day is taking the successor |
| Calendar.ParseIsoDate | frontend/src/components/forms/OrderForm.tsx:16-22 | a date is read only from YYYY-MM-DD text naming an existing day, with those year, month and day |
| Strings.StrLeTotal | backend/src/modules/cities/cities.service.ts:22-26 | any two names are comparable in the name order |
| Strings.StrLeTransitive | backend/src/modules/cities/cities.service.ts:22-26 | the name order is transitive |
| Strings.IndexOfFrom | backend/src/modules/auth/guards/admin.guard.ts:19 | the search finds the first occurrence at or after the start, or reports that none exists |
| Strings.ReplaceFirst | backend/src/modules/auth/guards/admin.guard.ts:19 | String.replace with a string: only the first occurrence is replaced; without one the text is unchanged |
| Strings.Split | backend/src/modules/auth/guards/admin.guard.ts:21 | split gives at least one field and no field contains the separator |
| Strings.SplitWithoutSeparator | backend/src/modules/auth/guards/admin.guard.ts:21 | a text without the separator splits into itself alone |
| Strings.SplitJoin | backend/src/modules/auth/guards/admin.guard.ts:21 | splitting a + sep + b, with no sep in a, gives a and then the fields of b |
| Strings.ContainsEmpty | frontend/src/pages/admin/AdminDashboard.tsx:48-56 | every text includes the empty text |
| Strings.LowerChar | frontend/src/pages/admin/AdminDashboard.tsx:48 | toLowerCase maps A-Z, А-Я and Ё to their lower-case letters and leaves every other character |
| Strings.Lower | frontend/src/pages/admin/AdminDashboard.tsx:48 | lower-casing keeps the length and lower-cases each character |
| Strings.LowerIdempotent | frontend/src/pages/admin/AdminDashboard.tsx:48 | lower-casing twice is lower-casing once |
| Strings.Utf16Length | frontend/src/components/forms/RegisterForm.tsx:6-9 | the JavaScript length is between one and two units per character |
| Strings.Digits | frontend/src/components/forms/RegisterForm.tsx:26 | replace(/\D/g, "") keeps only digits and never lengthens the text |
| Strings.DigitsConcat | frontend/src/components/forms/RegisterForm.tsx:26 | the digits of a concatenation are the concatenated digits |
| Strings.DigitsOfDigits | frontend/src/components/forms/RegisterForm.tsx:26 | stripping non-digits changes nothing exactly when the text is all digits |
| Sorting.Insert | backend/src/modules/cities/cities.service.ts:22-26 | inserting into a sorted sequence keeps it sorted and adds exactly that element |
| Sorting.InsertionSort | backend/src/modules/cities/cities.service.ts:22-26 | ORDER BY: the result is sorted by the ordering and is a permutation of the input |
| Seqs.FindFirst | backend/src/modules/tariffs/tariffs.service.ts:29-31 | findOne with a condition: a row that satisfies it, or none exists; the first row wins when it satisfies it |
| Seqs.Filter | backend/src/modules/orders/orders.service.ts:74-90 | a WHERE clause keeps exactly the rows that satisfy the condition |
| Seqs.FilterIsSubsequence | frontend/src/pages/admin/AdminDashboard.tsx:49 | filtering keeps the remaining rows in their order |
| Seqs.FilterCongruent | backend/src/modules/orders/orders.service.ts:102-107 | two conditions that agree on every row filter alike |
| Seqs.FilterDropsOne | backend/src/modules/cities/cities.service.ts:64 | removing the one failing row leaves the others in order |
| Tariffs.FindAll | backend/src/modules/tariffs/tariffs.service.ts:15-19 | every tariff, sorted by month ascending |
| Tariffs.FindById | backend/src/modules/tariffs/tariffs.service.ts:22 | the row with that id, or none exists |
| Tariffs.FindOne | backend/src/modules/tariffs/tariffs.service.ts:21-27 | not-found exactly when no row has the id, otherwise that row |
| Tariffs.FindByMonth | backend/src/modules/tariffs/tariffs.service.ts:29-31 | the month's row or null, never an error |
| Tariffs.FindByMonthUnique | backend/src/modules/tariffs/entities/tariff.entity.ts:11 | with one row per month, the lookup by a row's month returns that row |
| Tariffs.Patch | backend/src/modules/tariffs/tariffs.service.ts:38-42 | Object.assign: each supplied field is overwritten, the others and the id kept |
| Tariffs.TariffTable.Create | backend/src/modules/tariffs/tariffs.service.ts:33-36 | a month already present is refused by the unique index with the table unchanged; otherwise exactly one row is appended |
| Tariffs.TariffTable.Update | backend/src/modules/tariffs/tariffs.service.ts:38-42 | not-found for an unknown id; otherwise the patched row replaces it unless its month belongs to another row |
| Tariffs.ReplacePreservesKeys | backend/src/modules/tariffs/entities/tariff.entity.ts:11 | replacing a row with a month no other row holds keeps ids and months unique |
| Cities.NameLeIsTotalPreorder | backend/src/modules/cities/cities.service.ts:24 | the name order is a total preorder |
| Cities.FindAll | backend/src/modules/cities/cities.service.ts:22-26 | every city, sorted by name ascending in code-point order, and a permutation of the table |
| Cities.FindById | backend/src/modules/cities/cities.service.ts:29 | the row with that id, or none exists |
| Cities.FindOne | backend/src/modules/cities/cities.service.ts:28-34 | not-found exactly when no row has the id, otherwise that row |
| Cities.FindOneUnique | backend/src/modules/cities/cities.service.ts:28-34 | with unique ids, looking a row's id up finds that row |
| Cities.ReferenceCount | backend/src/modules/cities/cities.service.ts:51-56 | the count is zero exactly when no order has the city as origin or destination |
| Seqs.ReplaceByKey | backend/src/modules/cities/cities.service.ts:44 | save by primary key, as cities and tariffs (tariffs.service.ts:41) use it: the row with the saved row's key becomes it, every other row stays in its place, the length is kept |
| Cities.WithoutCityRemovesOneRow | backend/src/modules/cities/cities.service.ts:64 | removing a city removes exactly its row and keeps the others in order |
| Cities.CityTable.Create | backend/src/modules/cities/cities.service.ts:36-39 | no check in the service; a duplicate name is refused by the unique column with the table unchanged, otherwise one row is appended |
| Cities.CityTable.Update | backend/src/modules/cities/cities.service.ts:41-45 | not-found for an unknown id; otherwise only the supplied name is overwritten, unless another city has it |
| Cities.CityTable.Remove | backend/src/modules/cities/cities.service.ts:47-65 | not-found first; a referenced city is refused with the reference count and nothing changes; otherwise exactly that city goes |
| Cities.RemoveAtPreservesKeys | backend/src/modules/cities/entities/city.entity.ts:15-16 | removing a row keeps ids and names unique |
| Cities.ReplacePreservesKeys | backend/src/modules/cities/entities/city.entity.ts:15-16 | replacing a row with a name no other row holds keeps ids and names unique |
| Users.PhonePatternByDigits | backend/src/modules/users/dto/create-user.dto.ts:13 | the phone pattern holds iff the phone is its digits with at most one leading '+', there are 2 to 15 digits and the first is not 0 |
| Users.ExamplePhoneAccepted | backend/src/modules/users/dto/create-user.dto.ts:10-13 | the documented example "+79991234567" matches |
| Users.FindOne | backend/src/modules/users/users.service.ts:29-34 | the user with that id, or null (no error) when none exists |
| Users.FindByPhone | backend/src/modules/users/users.service.ts:36-38 | the user with that phone, or null when none exists |
| Users.ByPhone | backend/src/modules/users/users.controller.ts:25-33 | the controller turns a missing phone into not-found and otherwise returns the user |
| Users.FindByPhoneUnique | backend/src/modules/users/entities/user.entity.ts:19-20 | with unique phones, looking a user's phone up finds that user |
| Users.UserTable.Create | backend/src/modules/users/users.service.ts:14-27 | a registered phone is a conflict with the table unchanged; otherwise exactly one user with the DTO's fields is appended; phones stay unique |
| Users.CreatedUserIsFound | backend/src/modules/users/users.service.ts:25-38 | after a create, looking the phone up finds the new user |
| Orders.Calculate | backend/src/modules/orders/orders.service.ts:21-34 | not-found iff either city id is unknown; otherwise the calculator's quote for the two names and the date |
| Orders.NewOrder | backend/src/modules/orders/orders.service.ts:47-51 | the stored order carries the DTO's fields, the quote's fields, the unpaid default and the creation time |
| Orders.FindOne | backend/src/modules/orders/orders.service.ts:135-146 | not-found exactly when no order has the id, otherwise that order |
| Orders.SetPaymentStatus | backend/src/modules/orders/orders.service.ts:148-155 | the orders with that id get the status and every other field and order is kept |
| Orders.StatusOverwritten | backend/src/modules/orders/orders.service.ts:148-155 | after the update the order is found with the new status and its other fields unchanged |
| Orders.FindFirstStatus | backend/src/modules/orders/orders.service.ts:148-155 | the first order with the id, after the update, is the one before with the new status |
| Orders.LastStatusWins | backend/src/modules/orders/orders.service.ts:153 | no transition guard: two updates leave the second status |
| Orders.SetStatusIdempotent | backend/src/modules/orders/orders.service.ts:153 | repeating an update changes nothing |
| Orders.OrderTable.Create | backend/src/modules/orders/orders.service.ts:36-54 | unknown cities are not-found; an unknown user is refused by the foreign key; otherwise exactly one order, built from the DTO and a fresh quote, is appended; a stored order's total is 1.1 × its transport price and its arrival is its start date plus its days |
| Orders.OrderTable.UpdatePaymentStatus | backend/src/modules/orders/orders.service.ts:148-155 | not-found for an unknown id with nothing changed; otherwise the table becomes the status overwrite |
| Payment.ProcessPayment | backend/src/modules/payment/payment.service.ts:9-20 | an unknown order is not-found with nothing changed; otherwise the order becomes paid and the reply is success with that id |
| Payment.PaidAfterPayment | backend/src/modules/payment/payment.service.ts:14 | after payment the order is found paid, its other fields unchanged |
| Payment.PaymentIdempotent | backend/src/modules/payment/payment.service.ts:14 | paying twice is paying once |
| Payment.PaymentTouchesOneOrder | backend/src/modules/payment/payment.service.ts:14 | every other order is left as it was |
| OrderListing.OrderingsArePreorders | backend/src/modules/orders/orders.service.ts:109-118 | the date, price and creation orderings are total preorders |
| OrderListing.Arrange | backend/src/modules/orders/orders.service.ts:109-118 | date or price sorts in the direction, ASC by default; another sortBy keeps the order; no sortBy puts the newest first; always a permutation |
| OrderListing.Paginate | backend/src/modules/orders/orders.service.ts:120-123 | paging only with both page and limit: skip (page − 1) · limit, take at most limit |
| OrderListing.Matching | backend/src/modules/orders/orders.service.ts:74-107 | exactly the orders passing every given filter, in table order |
| OrderListing.FindAll | backend/src/modules/orders/orders.service.ts:56-133 | listed orders match; total counts every match before paging; without paging all matches are listed; the listed orders are the (page−1)·limit..+limit slice of the arranged matches and stand in the ORDER BY's order (newest first without sortBy, by date or price in the direction); page defaults to 1 and limit to the count returned |
| OrderListing.ListedIffMatches | backend/src/modules/orders/orders.service.ts:74-107 | without paging an order is listed iff it passes every filter |
| OrderListing.RangeIgnoredUnlessComplete | backend/src/modules/orders/orders.service.ts:92-107 | with a single day given, or a bound missing, the range bounds do not change the listing |
| OrderListing.RangeIsInclusive | backend/src/modules/orders/orders.service.ts:102-106 | the range keeps the days between the bounds, both ends included |
| OrderListing.PagesTile | backend/src/modules/orders/orders.service.ts:120-123 | pages 1..n laid end to end are the first n · limit arranged matches |
| Seeds.SeedCity | backend/src/database/seeds/run-seeds.ts:27-36 | afterwards the name exists; existing rows stay as a prefix and stay present; a missing name adds exactly one row, the city with the next id and that name; a name already present changes nothing |
| Seeds.SeedMonth | backend/src/database/seeds/run-seeds.ts:47-59 | afterwards the month has a row; existing rows stay as a prefix and stay present; a missing month adds exactly one row, that month at 150 and 100 with the next id; a month already present changes nothing |
| Seeds.SeedCities | backend/src/database/seeds/run-seeds.ts:26-37 | each listed name exists afterwards; existing rows are kept as a prefix; new rows carry listed names; with every name present nothing changes |
| Seeds.SeedTariffs | backend/src/database/seeds/run-seeds.ts:46-60 | each month 1..12 has a row afterwards; existing rows are kept; new rows have the rates 150 and 100; with every month present nothing changes |
| Seeds.Seed | backend/src/database/seeds/run-seeds.ts:13-60 | both loops; a second run finds everything present and changes neither table |
| Seeds.SeedNamesDistinct | backend/src/database/seeds/run-seeds.ts:15-24 | the eight listed names are pairwise distinct |
| Base64.CharOf | backend/src/modules/auth/auth.service.ts:20 | a 6-bit value maps to an alphabet character, never the padding '=' |
| Base64.ValueOf | backend/src/modules/auth/guards/admin.guard.ts:20 | an alphabet character has a 6-bit value whose character it is |
| Base64.ValueOfCharOf | backend/src/modules/auth/auth.service.ts:20 | reading back the character of a value gives the value |
| Base64.EncodeGroup | backend/src/modules/auth/auth.service.ts:20 | three bytes become four alphabet characters |
| Base64.Encode | backend/src/modules/auth/auth.service.ts:20 | toString("base64") has 4·⌈n/3⌉ characters |
| Base64.DecodeGroup | backend/src/modules/auth/guards/admin.guard.ts:20 | four 6-bit values become three bytes |
| Base64.GroupRoundTrip | backend/src/modules/auth/guards/admin.guard.ts:20 | a group's four values decode back to its three bytes |
| Base64.OneByteRoundTrip | backend/src/modules/auth/guards/admin.guard.ts:20 | a one-byte tail with "==" decodes back |
| Base64.TwoByteRoundTrip | backend/src/modules/auth/guards/admin.guard.ts:20 | a two-byte tail with "=" decodes back |
| Base64.GroupStep | backend/src/modules/auth/guards/admin.guard.ts:20 | a full group in front decodes to its bytes in front |
| Base64.DecodeEncode | backend/src/modules/auth/guards/admin.guard.ts:20 | decoding a token undoes the encoding of any bytes |
| Utf8.EncodeChar | backend/src/modules/auth/auth.service.ts:20 | one to four bytes, one exactly for ASCII, the others continuation bytes |
| Utf8.Encode | backend/src/modules/auth/auth.service.ts:20 | between one and four bytes per character |
| Utf8.DecodeChar | backend/src/modules/auth/guards/admin.guard.ts:20 | a well-formed character takes one to four of the remaining bytes |
| Utf8.DecodeEncodeChar | backend/src/modules/auth/guards/admin.guard.ts:20 | the bytes of a character, in front of anything, decode back to it |
| Utf8.DecodeEncode | backend/src/modules/auth/guards/admin.guard.ts:20 | toString("utf-8") undoes Buffer.from of any text |
| Utf8.AsciiEncoding | backend/src/modules/auth/auth.service.ts:20 | ASCII text is encoded one byte per character, each its code |
| Auth.Token | backend/src/modules/auth/auth.service.ts:19-21 | the token decodes to the text login ':' password |
| Auth.Login | backend/src/modules/auth/auth.service.ts:6-22 | a token iff both fields equal the configured ones, otherwise unauthorized; the token decodes to the credentials |
| Auth.CanActivate | backend/src/modules/auth/guards/admin.guard.ts:11-31 | a missing header is unauthorized; access iff, after removing the first "Bearer ", the first two ':' fields of the decoded token are the credentials; otherwise unauthorized |
| Auth.StripBearer | backend/src/modules/auth/guards/admin.guard.ts:19 | removing the first "Bearer " from "Bearer " + t gives t |
| Auth.SplitCredentials | backend/src/modules/auth/guards/admin.guard.ts:21 | login ':' password splits into the login and the fields of the password when the login has no ':' |
| Auth.IssuedTokenAccepted | backend/src/modules/auth/guards/admin.guard.ts:19-28 | credentials without ':' get a token that the guard accepts |
| Auth.IssuedTokenAcceptedIff | backend/src/modules/auth/guards/admin.guard.ts:21-28 | the issued token is accepted exactly when neither login nor password contains ':' |
| PhoneFormat.FormatEmptyIff | frontend/src/components/forms/RegisterForm.tsx:25-27 | the mask gives "" exactly when no digit was typed |
| PhoneFormat.FormatStartsWithPlus | frontend/src/components/forms/RegisterForm.tsx:28-32 | every non-empty result starts with '+' |
| PhoneFormat.MaskDigits | frontend/src/components/forms/RegisterForm.tsx:28-32 | the mask over digits keeps the first eleven, in order, and adds no digit |
| PhoneFormat.FormatKeepsDigits | frontend/src/components/forms/LoginForm.tsx:22-28 | the digits of the result are the first min(11, n) digits typed, in order |
| PhoneFormat.MaskOfKept | frontend/src/components/forms/LoginForm.tsx:28 | digits after the eleventh do not reach the result |
| PhoneFormat.FormatIdempotent | frontend/src/components/forms/RegisterForm.tsx:25-33 | formatting a formatted value returns it unchanged |
| PhoneFormat.ShortMask | frontend/src/components/forms/LoginForm.tsx:25 | two to four digits give "+d (ddd" with no closing parenthesis |
| PhoneFormat.MediumMask | frontend/src/components/forms/LoginForm.tsx:26-27 | five to seven digits give "+d (ddd) " and the rest |
| PhoneFormat.LongMask | frontend/src/components/forms/RegisterForm.tsx:32 | more than seven digits give "+d (ddd) ddd-dd-dd" by position, the last groups cut short, both dashes always present |
| PhoneFormat.PhoneFieldByDigits | frontend/src/components/forms/LoginForm.tsx:5-18 | the phone field is accepted iff it has 10 or 11 digits (such a field is never empty) |
| PhoneFormat.FormattedFieldValid | frontend/src/components/forms/RegisterForm.tsx:10-33 | the masked field is accepted exactly when at least ten digits were typed |
| PhoneFormat.FullNameRule | frontend/src/components/forms/RegisterForm.tsx:6-9 | a full name is accepted exactly when it has at least three UTF-16 units: any three characters pass, a single character never does |
| PhoneFormat.FullNameBoundary | frontend/src/components/forms/RegisterForm.tsx:6-9 | at the boundary, the three-letter "Лев" passes and the two-letter "Ян" fails |
| PhoneFormat.ForServerShape | frontend/src/pages/public/LoginPage.tsx:16-19 | the result depends on the digits only, starts with "+7", is '+' then digits, and is the digits behind "+" or "+7" as they begin with '7' or not |
| PhoneFormat.DigitsOfForServer | frontend/src/pages/public/LoginPage.tsx:16 | the digits of the result are everything after its '+' |
| PhoneFormat.ForServerIdempotent | frontend/src/pages/public/RegisterPage.tsx:16-19 | normalising a normalised phone changes nothing |
| PhoneFormat.ForServerMatchesPattern | frontend/src/pages/public/LoginPage.tsx:16-19 | the server's pattern accepts the result iff there are 2–15 digits beginning with '7', or 1–14 otherwise |
| PhoneFormat.AcceptedPhoneReachesServer | frontend/src/components/forms/LoginForm.tsx:9-17 | a phone the form accepts is normalised into one the server's pattern accepts |
| PhoneFormat.TrunkPrefixKept | frontend/src/pages/public/LoginPage.tsx:17-19 | digits beginning with 8 are sent as "+78…", the 8 kept |
| AccountPages.HandleLogin | frontend/src/pages/public/LoginPage.tsx:12-35 | the user of the normalised phone, found, or else created as "Пользователь" with that phone; the phone then finds this user |
| AccountPages.OutcomeOf | frontend/src/pages/public/RegisterPage.tsx:35-45 | success signs the user in; a 409 conflict, and only it, sends to login |
| AccountPages.HandleRegister | frontend/src/pages/public/RegisterPage.tsx:12-45 | the full name unchanged and the normalised phone are submitted; a registered phone sends to login with nothing changed; otherwise the new user signs in |
| OrderForm.Errors | frontend/src/components/forms/OrderForm.tsx:7-31 | each field has an error exactly when its rule fails; equal cities are reported on cityToId |
| OrderForm.ValidIffAllRules | frontend/src/components/forms/OrderForm.tsx:7-31 | the form passes iff brand and model are non-empty, both ids are UUIDs and differ, and the date is not in the past |
| OrderForm.SameCityOnDestination | frontend/src/components/forms/OrderForm.tsx:28-31 | the same city twice is an error on the destination, not on the origin |
| OrderForm.TodayIsNotPast | frontend/src/components/forms/OrderForm.tsx:13-26 | today is accepted; an earlier day is refused |
| AdminDashboard.FetchParams | frontend/src/pages/admin/AdminDashboard.tsx:68-77 | paymentStatus, startDate and endDate are sent exactly when their input is non-empty, with its value |
| AdminDashboard.OneBoundFiltersNothing | frontend/src/pages/admin/AdminDashboard.tsx:72-77 | with only one of "from" and "to" picked, the registry's answer is the one without dates |
| AdminDashboard.ApplyFilters | frontend/src/pages/admin/AdminDashboard.tsx:43-62 | an empty search keeps the list as it is; the result keeps the list's order and holds exactly the orders matching the lower-cased search |
| AdminDashboard.ApplyFiltersIsSearch | frontend/src/pages/admin/AdminDashboard.tsx:47-56 | the empty search matches everything, so the result is always the search filter |
| AdminDashboard.SearchIgnoresCase | frontend/src/pages/admin/AdminDashboard.tsx:48-56 | searching the lower-cased text gives the same orders |

## Left out

- I/O: HTTP, the database, axios, localStorage, alerts, navigation and page rendering are not modelled. Each request is a call on the table it reaches.
- Concurrency: the source's async steps run one after another in the model. Two concurrent creates with the same phone or month are not modelled.
- The routing service: its reply is a parameter (`None` when the request throws or the field is missing), and the request URL is not modelled.
- Floating point: prices and rates are exact reals. `0.1 * price` rounding and the `decimal(10,2)` columns are not modelled.
- Decimal columns as strings: the rate columns are `decimal` (tariff.entity.ts:19-22) with no transformer, and the pg driver returns such columns as strings. The model uses the entity's declared `number` types instead.
- PriceCalculator.ZeroRateFallsBack and PriceCalculator.ZeroRateRowIsNoRow: they hold for numeric rates only. At run time a stored zero rate arrives as the string "0.00". That string is truthy, so the `||` keeps it and the trip is priced at zero rather than at the default rate.
- Time zones and times of day: `new Date(...)` is taken as the calendar day of the text. The `date` filter's start-of-day and end-of-day and the form's local midnight become day comparisons.
- Distance.GetDistance: the service reply is in whole metres or more, as `real`; negative or non-numeric replies are not modelled.
- Base64.Decode: defined only on canonical input. Node's lenient decoding (unpadded or garbage characters, which it skips) would accept tokens the model refuses.
- Utf8.Decode: defined only on well-formed input. Node's replacement of malformed bytes by U+FFFD is not modelled.
- Strings.LowerChar: toLowerCase is modelled for ASCII and basic Cyrillic (А-Я, Ё) only.
- OrderForm.IsUuid: the UUID check is the 8-4-4-4-12 hex shape; any version or variant digit restriction is not modelled.
- Validation pipes: main.ts and its ValidationPipe options (whitelisting, type conversion) are not part of this model. The services are modelled without DTO validation in front, and the DTO rules are separate predicates.
- The create spread: `...createOrderDto` could carry extra fields; only the declared ones are modelled.
- Ids: they are counter values, not random UUIDs. Lookups by an id of the wrong shape are not modelled.
- UpdateCityDto and UpdateTariffDto: update-city.dto.ts and update-tariff.dto.ts are not part of this model. They are taken to be the partial forms of the create DTOs (every field optional).
- Users.UserTable.Create: the unique phone column behind the service's own check is not modelled separately.
- Orders.OrderTable.Create: `usersService.findOne` raises nothing for an unknown user; the missing user surfaces as the foreign-key refusal on save (`StorageViolation`).
- OrderListing.Filters: the query's `page` and `limit` are `nat` with 0 for absent; negative or non-numeric values are not modelled. `cityFromId`, `cityToId` and `paymentStatus` are typed, so an unknown enum string is not modelled. `date`, `startDate` and `endDate` are whole dates. Malformed date text is not modelled: it becomes an Invalid Date, and the query fails on it (orders.service.ts:92-106). `sortOrder` is ASC or DESC. Any other string (such as "desc") is not modelled: TypeORM's `orderBy` refuses it when `sortBy` is "date" or "price" (orders.service.ts:110-114).
- Cities.FindAll: names are sorted by code point, which is PostgreSQL's "C" collation. The schema (backend/src/database/migrations/1700000000000-InitialSchema.ts:30-37) declares no COLLATE, so the database's default collation decides; under en_US, ru_RU or ICU collations case is ignored at the first level, Ё sorts next to Е and hyphens are ignored, and the order the model promises can differ from the one the database returns.
- OrderListing.Arrange: ties, and an unknown `sortBy`, take table order. The database may return any order there. A `sortOrder` other than ASC or DESC cannot be expressed; the query error it causes is not modelled.
- Entities: the `updatedAt` columns and the user's order relations are not modelled; `createdAt` is a clock parameter.
- The order form's carModel: it is checked by the form but not stored by the backend, so `Orders` has no such field.
- AccountPages.HandleLogin: any failure of the lookup leads to the create, but only "not found" is modelled; network failures and the outer error alert are not.
- AccountPages.OutcomeOf: the `Alerted` outcome covers the server's other errors, which the modelled users table does not produce.
- AdminDashboard: the stale-filter `useEffect` (re-filtering only when the list is non-empty) and the displayed fields are not modelled.
- Price formatting, the confirmation page, the profile page and the admin pages for cities and tariffs are not part of this model.
