# Purchase settlement engine of sserafimflow

This project models the purchase settlement engine of the sserafimflow invoice-factoring
backend (`PurchaseService`). Companies sell receivable documents to banks at a discount, and
banks later pay for them. The model covers:

- `sellDocument`: guards, currency conversion of the face amount, choice of TEP by rate type,
  discount rate and received value, then the document becomes PENDING and one PENDING purchase
  is created;
- `calculateDiscountRate` and `calculateReceivedValue`: BigDecimal arithmetic, with the
  division rounded HALF_UP at the scale of the TEP;
- `payDocument`: guards, then the bank gains nominal − received, the company gains the
  received value (converted when the currencies differ), and the purchase and its document
  become PAID;
- `tryToBuyByPurchaseDate`: the sweep that pays every listed PENDING purchase whose purchase
  day started strictly before now (the start of that day `isBefore` now);
- `getPurchasesBySpecificState` and `convertEntityListToDTOList`: the purchases of a company or
  a bank, optionally of one state, sorted by ascending identifier.

Layout:

- `outcomes.dfy`: `Option` and `Result`.
- `decimals.dfy`: BigDecimal as an unscaled integer and a scale, and division rounded HALF_UP.
- `rates.dfy`: the discount rate and the received value, and their bounds.
- `ledger.dfy`: the records (documents, purchases, banks, companies) as a `Books` value, the
  consistency invariant `Valid`, and each operation as a function from the records before to
  the outcome and the records after (`Sale`, `Payment`, `Sweep`). The properties of the
  operations are proved here.
- `listing.dfy`: the owner a listing is for, which purchases match, and the order of a listing.
- `service.dfy`: the class `PurchaseService`, whose maps are the four repositories. Its methods
  run each operation step by step, updating the maps in place. `SellDocument`, `PayDocument` and
  `TryToBuyByPurchaseDate` are proved to agree with `Sale`, `Payment` and `Sweep` in `ledger.dfy`;
  `GetPurchasesBySpecificState` is proved to agree with `OwnerOf` and `Matching` in
  `listing.dfy`. The sweep is a loop calling `PayDocument`. The listing sorts an array in place
  (insertion sort) and builds its entries in a loop.

Three behaviours of the code are worth stating plainly:

- The discount rate is only bounded by `0 ≤ d ≤ 1` for `tep ≥ 0`, not `d < 1`: a TEP of 1 at
  scale 0 divides 1 by 2, and HALF_UP rounds that to 1 (`DiscountRateReachesOne`).
- The discount rate is rounded at the scale of the TEP, not at a currency's precision:
  `BigDecimal.divide(divisor, RoundingMode.HALF_UP)` keeps the dividend's scale.
- The sweep has no handler around `payDocument`, so the first exception would end it, and the
  payments made before it stay made. The model stops paying after the first failure. It then
  proves that, on consistent records, no payment in the sweep fails (`SweepPaysDue`).

## Model

| member | source | states |
|---|---|---|
| Decimals.HalfUpQuotient | src/main/java/com/brianuceda/sserafimflow/services/PurchaseService.java:151 | the quotient is the exact quotient rounded to the nearest integer, with ties away from zero (RoundingMode.HALF_UP) |
| RateCalculator.DiscountRate | src/main/java/com/brianuceda/sserafimflow/services/PurchaseService.java:148-153 | fails exactly when 1 + tep is zero (the division throws); otherwise d has the scale of tep and its digits are tep / (1 + tep) rounded HALF_UP |
| RateCalculator.DiscountRateInUnitInterval | src/main/java/com/brianuceda/sserafimflow/services/PurchaseService.java:148-153 | for tep ≥ 0 the division is defined and 0 ≤ d ≤ 1 |
| RateCalculator.DiscountRateZeroIff | src/main/java/com/brianuceda/sserafimflow/services/PurchaseService.java:148-153 | for tep ≥ 0, d is zero exactly when tep is zero |
| RateCalculator.DiscountRateReachesOne | src/main/java/com/brianuceda/sserafimflow/services/PurchaseService.java:148-153 | d = 1 is reachable: tep = 1 at scale 0 gives d = 1 |
| RateCalculator.ReceivedValue | src/main/java/com/brianuceda/sserafimflow/services/PurchaseService.java:155-158 | calculateReceivedValue: the exact product nominal × (1 − d); its bounds are stated by ReceivedValueBounds and SaleTermsBounds |
| RateCalculator.ReceivedValueBounds | src/main/java/com/brianuceda/sserafimflow/services/PurchaseService.java:155-158 | for nominal ≥ 0 and 0 ≤ d ≤ 1, 0 ≤ nominal × (1 − d) ≤ nominal, with equality to nominal exactly when nominal or d is zero |
| RateCalculator.SaleTermsBounds | src/main/java/com/brianuceda/sserafimflow/services/PurchaseService.java:148-158 | for tep ≥ 0 and nominal ≥ 0 the received value lies in [0, nominal], and equals nominal exactly when the amount or the TEP is zero |
| Ledger.ToInt32 | src/main/java/com/brianuceda/sserafimflow/services/PurchaseService.java:92 | the (int) cast: the result is in the 32-bit range, congruent to the input modulo 2^32, and equal to it when it fits |
| Ledger.CompanyByUsername | src/main/java/com/brianuceda/sserafimflow/services/PurchaseService.java:66-67 | finds the company with that username, or reports that none has it |
| Ledger.BankByUsername | src/main/java/com/brianuceda/sserafimflow/services/PurchaseService.java:234-235 | finds the bank with that username, or reports that none has it |
| Ledger.NominalValue | src/main/java/com/brianuceda/sserafimflow/services/PurchaseService.java:80-85 | the face amount, converted to the bank's currency only when the currencies differ; stated by NewPurchaseTerms |
| Ledger.TepFor | src/main/java/com/brianuceda/sserafimflow/services/PurchaseService.java:98-111 | the TEP by rate type: calculateTep of the bank's nominal rate over the holding period for NOMINAL, the bank's effective rate for EFFECTIVE; stated by SaleGuard and NewPurchaseTerms |
| Ledger.NewPurchase | src/main/java/com/brianuceda/sserafimflow/services/PurchaseService.java:80-133 | the purchase a sale builds, or the error that stops it before any write; its fields are stated by NewPurchaseTerms and its errors by SaleGuard |
| Ledger.SaleParties | src/main/java/com/brianuceda/sserafimflow/services/PurchaseService.java:66-77 | the sale's guards pass exactly when the document exists, belongs to the username's company and is AVAILABLE, and the bank exists |
| Ledger.Sale | src/main/java/com/brianuceda/sserafimflow/services/PurchaseService.java:65-140 | a failed sale leaves the records unchanged |
| Ledger.SaleGuard | src/main/java/com/brianuceda/sserafimflow/services/PurchaseService.java:66-151 | each rejection names the first check that fails: CompanyNotFound, DocumentNotFound, AlreadySold, BankNotFound; once these pass, a missing rate type gives InvalidRateType, a NOMINAL TEP outside the double range TepNotFinite, a zero denominator DivisionByZero, and otherwise the sale succeeds with the next purchase identifier; a failure changes nothing |
| Ledger.SaleOutcome | src/main/java/com/brianuceda/sserafimflow/services/PurchaseService.java:116-137 | after a sale the document is PENDING, exactly one purchase is added under a fresh identifier, and banks and companies are unchanged |
| Ledger.NewPurchaseTerms | src/main/java/com/brianuceda/sserafimflow/services/PurchaseService.java:80-133 | the new purchase is PENDING and unpaid, in the bank's currency and linked to that bank and document; the nominal value is the face amount when the currencies agree and the converted amount otherwise; the TEP is the finite result of the TEP calculation for NOMINAL and the effective rate for EFFECTIVE, and the rate value is the bank's rate of that type; the discount rate and received value are those of the TEP |
| Ledger.SaleValid | src/main/java/com/brianuceda/sserafimflow/services/PurchaseService.java:116-137 | a sale keeps the records consistent |
| Ledger.SoldDocumentIsNotSoldAgain | src/main/java/com/brianuceda/sserafimflow/services/PurchaseService.java:72-74 | a document that has a purchase can not be sold by anyone, and the attempt changes nothing |
| Ledger.NoDoubleSale | src/main/java/com/brianuceda/sserafimflow/services/PurchaseService.java:65-140 | after a successful sale every later sale of the same document fails without effect, with AlreadySold for the same company |
| Ledger.Payment | src/main/java/com/brianuceda/sserafimflow/services/PurchaseService.java:233-289 | a failed payment leaves the records unchanged |
| Ledger.PaymentGuard | src/main/java/com/brianuceda/sserafimflow/services/PurchaseService.java:234-242 | a payment succeeds exactly for a PENDING purchase of the paying bank; otherwise it fails with BankNotFound, PurchaseNotFound or AlreadyPaid, in that order, and changes nothing |
| Ledger.PaymentSettles | src/main/java/com/brianuceda/sserafimflow/services/PurchaseService.java:240-281 | a successful payment was of a PENDING purchase of that bank, and its records are the settlement |
| Ledger.Settle | src/main/java/com/brianuceda/sserafimflow/services/PurchaseService.java:250-275 | the settlement of a PENDING purchase; its effect on every record is stated by SettleEffect |
| Ledger.CompanyCredit | src/main/java/com/brianuceda/sserafimflow/services/PurchaseService.java:257-262 | what the company is credited: the received value, converted to its main currency only when the purchase currency differs; stated by SettleEffect and PaymentConservesMoney |
| Ledger.SettleEffect | src/main/java/com/brianuceda/sserafimflow/services/PurchaseService.java:250-275 | the bank gains nominal − received; the company gains the received value, converted only when its main currency differs; the purchase and its document become PAID with pay date now; nothing else changes |
| Ledger.PaymentConservesMoney | src/main/java/com/brianuceda/sserafimflow/services/PurchaseService.java:265-270 | without conversion, the bank's gain plus the company's gain is the nominal value |
| Ledger.PaymentPreserves | src/main/java/com/brianuceda/sserafimflow/services/PurchaseService.java:233-281 | a payment keeps the records consistent and adds or removes no record |
| Ledger.NoDoublePayment | src/main/java/com/brianuceda/sserafimflow/services/PurchaseService.java:240-242 | after a successful payment, paying the same purchase again fails with AlreadyPaid and changes nothing |
| Ledger.SaleThenPayment | src/main/java/com/brianuceda/sserafimflow/services/PurchaseService.java:265-270 | a sale and then its payment, in one currency with tep ≥ 0 and amount ≥ 0: the payment succeeds, both gains are non-negative, and they add up to the face amount |
| Ledger.Due | src/main/java/com/brianuceda/sserafimflow/services/PurchaseService.java:298 | a purchase is paid by the sweep when the start of its purchase day lies strictly before now; stated by SweepPaysDue |
| Ledger.Sweep | src/main/java/com/brianuceda/sserafimflow/services/PurchaseService.java:292-302 | the sweep keeps the records consistent and adds or removes no record |
| Ledger.SweepPaysDue | src/main/java/com/brianuceda/sserafimflow/services/PurchaseService.java:292-302 | over distinct PENDING purchases the sweep never fails; exactly the due ones and their documents become PAID with pay date now, and all other purchases and documents are untouched; each bank and each company keeps its record except its balance, which grows by nominal − received (bank) or the credited received value (company) summed over its due listed purchases |
| Ledger.BankUntouched | src/main/java/com/brianuceda/sserafimflow/services/PurchaseService.java:269 | a bank with no due listed purchase gains nothing in the sweep |
| Ledger.CompanyUntouched | src/main/java/com/brianuceda/sserafimflow/services/PurchaseService.java:270 | a company none of whose documents has a due listed purchase gains nothing in the sweep |
| Listing.OwnerOf | src/main/java/com/brianuceda/sserafimflow/services/PurchaseService.java:163-211 | the listing fails exactly when no company (or bank) has the username, with CompanyNotFound (or BankNotFound); otherwise it is for the company (or bank) of that username |
| Listing.IncreasingUnique | src/main/java/com/brianuceda/sserafimflow/services/PurchaseService.java:181 | sorting by identifier determines the listing: two increasing lists of the same identifiers are equal |
| Service.Enumerate | src/main/java/com/brianuceda/sserafimflow/services/PurchaseService.java:293 | a query lists each purchase of the set exactly once |
| Service.SortById | src/main/java/com/brianuceda/sserafimflow/services/PurchaseService.java:181 | the array ends sorted by identifier and is a permutation of what it held |
| Service.SortedPermutation | src/main/java/com/brianuceda/sserafimflow/services/PurchaseService.java:181 | a sorted rearrangement of a list without repetitions is strictly increasing and has the same elements |
| Service.ToPurchasedDocuments | src/main/java/com/brianuceda/sserafimflow/services/PurchaseService.java:215-228 | one entry per purchase, in the same order, carrying the purchase, with its identifier exactly when one is asked for |
| Service.SortedEntries | src/main/java/com/brianuceda/sserafimflow/services/PurchaseService.java:176-184 | the entries name exactly the found purchases, each with its record, in strictly increasing order of identifier |
| Service.PurchaseService.SellDocument | src/main/java/com/brianuceda/sserafimflow/services/PurchaseService.java:65-140 | the outcome and the new records are those of Sale; the records stay consistent; the exchange rates are fetched once when the guards pass and the currencies differ, and otherwise not at all |
| Service.PurchaseService.Save | src/main/java/com/brianuceda/sserafimflow/services/PurchaseService.java:116-137 | the document becomes PENDING and the purchase is stored under the next identifier |
| Service.PurchaseService.PayDocument | src/main/java/com/brianuceda/sserafimflow/services/PurchaseService.java:233-289 | the outcome and the new records are those of Payment; the records stay consistent; the exchange rates are fetched once when the payment goes ahead and the currencies differ, and otherwise not at all |
| Service.PurchaseService.SettlePurchase | src/main/java/com/brianuceda/sserafimflow/services/PurchaseService.java:250-281 | the new records are the settlement of the purchase; the rates are fetched once exactly when the purchase currency differs from the company's |
| Service.PurchaseService.TryToBuyByPurchaseDate | src/main/java/com/brianuceda/sserafimflow/services/PurchaseService.java:292-302 | it goes through every PENDING purchase once, with the outcome and records of Sweep; it never fails; exactly the due PENDING purchases and their documents become PAID; each bank and company is credited exactly the sum over its due purchases and is otherwise unchanged; at most one rate fetch per listed purchase |
| Service.PurchaseService.PayListed | src/main/java/com/brianuceda/sserafimflow/services/PurchaseService.java:297-301 | the loop over the listed purchases leaves the outcome and records of Sweep, keeps them consistent, and fetches rates at most once per listed purchase |
| Service.PurchaseService.SweepOne | src/main/java/com/brianuceda/sserafimflow/services/PurchaseService.java:298-300 | one step of the loop: the next listed purchase is paid exactly when the sweep has not failed and it is due, as in Sweep |
| Service.PurchaseService.GetPurchasesBySpecificState | src/main/java/com/brianuceda/sserafimflow/services/PurchaseService.java:161-213 | fails exactly when the owner is not found; otherwise lists once each purchase that belongs to the owner (through its document for a company, directly for a bank) and has the requested state if one is given, with its record and identifier, in strictly increasing order of identifier |

## Left out

- `calculateTep` works in floating point (`double`, `Math.pow`). It is the parameter `tepOf`, which returns `None` when the power leaves the double range (there `BigDecimal.valueOf` throws a NumberFormatException). The sale then fails with TepNotFinite before any write; otherwise the NOMINAL branch uses the result unchanged.
- `getTodayExchangeRate` and `convertCurrency` are the parameter `convert`. The field `rateFetches` counts the calls to `getTodayExchangeRate`. Conversion rounding and round trips are not modelled.
- `LocalDateTime.now()` is the parameter `now`. A date is a day number, and a date-time is a day and a time of day. `ChronoUnit.DAYS.between` is a subtraction followed by the `(int)` cast.
- The sweep reads the clock once: the one `now` is used for every due test and every payment, pay dates included. In the source each due test and each payment calls `LocalDateTime.now()` afresh, so later purchases may see a later instant.
- Logging and the WebSocket dashboard push after a payment are left out. They change no record.
- `@Transactional` atomicity and concurrent callers are left out. The model is sequential, and every rejection comes before the first write.
- A null rate type is `None` and fails with InvalidRateType, before any write. In the source it throws from the `switch`. The `default` branch is unreachable with two rate types.
- A null role and the `default` branch of the listing are not modelled. The two roles cover every non-null value.
- A zero denominator (TEP = −1) fails with DivisionByZero, before any write. In the source `BigDecimal.divide` throws an ArithmeticException.
- Negative BigDecimal scales are not modelled. A scale is a natural number.
- The repository queries are the functions `Matching` and `PendingIds` plus the method `Enumerate`. `Enumerate` may list in any order, and the sweep is proved for every such order.
- `PurchasedDocumentDTO` keeps only the identifier and the purchase record. The unused `role` parameter of `convertEntityListToDTOList` is dropped.
- Service.PurchaseService.TryToBuyByPurchaseDate: the exception that would end the sweep is modelled as skipping every later purchase. On consistent records none occurs.
- Ledger.NewPurchaseTerms: when the currencies differ it states that the nominal value is the converted amount, not that it differs from the face amount, because a conversion can give back the same number.
- `_AuthBankService` is not part of this model.
