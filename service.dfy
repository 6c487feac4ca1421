/** PurchaseService as it runs: the four repositories are maps held by one object, and each
    operation checks its guards and then updates them in place.  Every operation is proved to
    agree with its counterpart in module Ledger, where the properties of the operations are
    proved. */
module Service {
  import opened Outcomes
  import opened Decimals
  import opened RateCalculator
  import opened Ledger
  import opened Listing

  /** A repository query: the rows of a set of purchases, in whatever order the database
      returns them. */
  method Enumerate(ids: set<PurchaseId>) returns (rows: seq<PurchaseId>)
    ensures Distinct(rows)
    ensures Elements(rows) == ids
  {
    rows := [];
    var rest := ids;
    while rest != {}
      invariant Distinct(rows)
      invariant Elements(rows) + rest == ids
      invariant Elements(rows) !! rest
      decreases |rest|
    {
      var id :| id in rest;
      rows := rows + [id];
      rest := rest - {id};
    }
  }

  /** purchases.sort by ascending identifier, on an array: an insertion sort. */
  method SortById(a: array<PurchaseId>)
    modifies a
    ensures Ascending(a[..])
    ensures multiset(a[..]) == multiset(old(a[..]))
  {
    var i := 0;
    while i < a.Length
      invariant 0 <= i <= a.Length
      invariant forall p, q :: 0 <= p < q < i ==> a[p] <= a[q]
      invariant multiset(a[..]) == multiset(old(a[..]))
    {
      var j := i;
      while j > 0 && a[j - 1] > a[j]
        invariant 0 <= j <= i
        invariant forall p, q :: 0 <= p < q <= i && q != j ==> a[p] <= a[q]
        invariant multiset(a[..]) == multiset(old(a[..]))
        decreases j
      {
        a[j - 1], a[j] := a[j], a[j - 1];
        j := j - 1;
      }
      i := i + 1;
    }
  }

  /** convertEntityListToDTOList: one entry per purchase, in the same order, with or without
      its identifier. */
  method ToPurchasedDocuments(rows: seq<(PurchaseId, Purchase)>, includeId: bool)
    returns (entries: seq<PurchasedDocument>)
    ensures |entries| == |rows|
    ensures forall k :: 0 <= k < |rows| ==>
      entries[k].purchase == rows[k].1 &&
      entries[k].id == if includeId then Some(rows[k].0) else None
  {
    entries := [];
    for k := 0 to |rows|
      invariant |entries| == k
      invariant forall m :: 0 <= m < k ==>
        entries[m].purchase == rows[m].1 &&
        entries[m].id == if includeId then Some(rows[m].0) else None
    {
      var entry := PurchasedDocument(Some(rows[k].0), rows[k].1);
      if !includeId {
        entry := entry.(id := None);
      }
      entries := entries + [entry];
    }
  }

  class PurchaseService {
    var documents: map<DocumentId, Document>
    var purchases: map<PurchaseId, Purchase>
    var banks: map<BankId, Bank>
    var companies: map<CompanyId, Company>
    var nextPurchaseId: nat
    /** How many times the day's exchange rates have been fetched. */
    var rateFetches: nat

    /** The records as module Ledger sees them. */
    function Records(): Books
      reads this`documents, this`purchases, this`banks, this`companies, this`nextPurchaseId
    {
      Books(documents, purchases, banks, companies, nextPurchaseId)
    }

    ghost predicate Valid()
      reads this`documents, this`purchases, this`banks, this`companies, this`nextPurchaseId
    {
      Ledger.Valid(Records())
    }

    constructor(initial: Books)
      requires Ledger.Valid(initial)
      ensures Valid() && Records() == initial && rateFetches == 0
    {
      documents := initial.documents;
      purchases := initial.purchases;
      banks := initial.banks;
      companies := initial.companies;
      nextPurchaseId := initial.nextPurchaseId;
      rateFetches := 0;
    }

    /** sellDocument */
    method SellDocument(username: string, req: SaleRequest, now: DateTime, tepOf: TepCalculator,
                        convert: Converter) returns (r: Result<PurchaseId, Error>)
      requires Valid()
      modifies this
      ensures Valid()
      ensures Step(r, Records()) == Sale(old(Records()), username, req, now, tepOf, convert)
      ensures rateFetches == old(rateFetches) + if SaleFetchesRate(old(Records()), username, req) then 1 else 0
    {
      ghost var before := Records();
      var company := CompanyByUsername(companies, username);
      if company.None? {
        SaleRejected(before, username, req, now, tepOf, convert);
        return Failure(CompanyNotFound);
      }
      if req.documentId !in documents || documents[req.documentId].company != company.value {
        SaleRejected(before, username, req, now, tepOf, convert);
        return Failure(DocumentNotFound);
      }
      var document := documents[req.documentId];
      if document.state == PENDING || document.state == PAID {
        SaleRejected(before, username, req, now, tepOf, convert);
        return Failure(AlreadySold);
      }
      if req.bankId !in banks {
        SaleRejected(before, username, req, now, tepOf, convert);
        return Failure(BankNotFound);
      }
      var bank := banks[req.bankId];
      assert SaleParties(before, username, req) == Success((company.value, document, bank));

      var nominalValue := document.amount;
      if document.currency != bank.currency {
        rateFetches := rateFetches + 1;
        nominalValue := convert(nominalValue, document.currency, bank.currency);
      }
      var purchaseDay := req.purchaseDate.GetOr(now.day);
      var days := ToInt32(document.dueDate - purchaseDay);

      var tep: Decimal, rateUsed: Decimal;
      match req.rateType {
        case None =>
          SaleTermsRejected(before, username, req, now, tepOf, convert);
          return Failure(InvalidRateType);
        case Some(NOMINAL) =>
          var calculated := tepOf(bank.nominalRate, days);
          if calculated.None? {
            SaleTermsRejected(before, username, req, now, tepOf, convert);
            return Failure(TepNotFinite);
          }
          tep := calculated.value;
          rateUsed := bank.nominalRate;
        case Some(EFFECTIVE) =>
          tep := bank.effectiveRate;
          rateUsed := bank.effectiveRate;
      }
      var discountRate := DiscountRate(tep);
      if discountRate.None? {
        SaleTermsRejected(before, username, req, now, tepOf, convert);
        return Failure(DivisionByZero);
      }
      var receivedValue := ReceivedValue(nominalValue, discountRate.value);

      var purchase := Purchase(purchaseDay, bank.currency, nominalValue, discountRate.value, receivedValue,
                               days, tep, req.rateType.value, rateUsed, PENDING, None, req.bankId, req.documentId);
      SaleAccepted(before, username, req, now, tepOf, convert, purchase);
      var id := Save(req.documentId, purchase);
      r := Success(id);
    }

    /** The saves sellDocument ends with: the document becomes PENDING and the purchase is
        stored under the next identifier. */
    method Save(documentId: DocumentId, purchase: Purchase) returns (id: PurchaseId)
      requires documentId in documents
      modifies this
      ensures id == old(nextPurchaseId)
      ensures Records() == Sold(old(Records()), documentId, purchase)
      ensures rateFetches == old(rateFetches)
    {
      documents := documents[documentId := documents[documentId].(state := PENDING)];
      id := nextPurchaseId;
      purchases := purchases[id := purchase];
      nextPurchaseId := id + 1;
    }

    /** payDocument */
    method PayDocument(username: string, purchaseId: PurchaseId, now: DateTime, convert: Converter)
      returns (r: Result<(), Error>)
      requires Valid()
      modifies this
      ensures Valid()
      ensures Step(r, Records()) == Payment(old(Records()), username, purchaseId, now, convert)
      ensures rateFetches ==
        old(rateFetches) + if PaymentFetchesRate(old(Records()), username, purchaseId) then 1 else 0
    {
      ghost var before := Records();
      var bankId := BankByUsername(banks, username);
      if bankId.None? {
        return Failure(BankNotFound);
      }
      if purchaseId !in purchases || purchases[purchaseId].bank != bankId.value {
        return Failure(PurchaseNotFound);
      }
      var purchase := purchases[purchaseId];
      if purchase.state == PAID {
        return Failure(AlreadyPaid);
      }
      PaymentAccepted(before, username, purchaseId, now, convert);
      SettlePurchase(purchaseId, now, convert);
      r := Success(());
    }

    /** The settlement payDocument ends with: the bank gains nominal - received, the company
        of the document the received value, converted to its main currency when the purchase
        currency differs (fetching the day's rates), and the purchase and the document become
        PAID. */
    method SettlePurchase(purchaseId: PurchaseId, now: DateTime, convert: Converter)
      requires Settleable(Records(), purchaseId)
      modifies this
      ensures Records() == Settle(old(Records()), purchaseId, now, convert)
      ensures var p := old(purchases[purchaseId]);
        rateFetches == old(rateFetches) +
          if p.currency != old(companies[documents[p.document].company].mainCurrency) then 1 else 0
    {
      var purchase := purchases[purchaseId];
      var nominalValue := purchase.nominalValue;
      var receivedValue := purchase.receivedValue;
      var document := documents[purchase.document];
      var company := companies[document.company];
      var convertedReceivedValue := receivedValue;
      if purchase.currency != company.mainCurrency {
        rateFetches := rateFetches + 1;
        convertedReceivedValue := convert(receivedValue, purchase.currency, company.mainCurrency);
      }
      var bankProfit := nominalValue - receivedValue;
      var bank := banks[purchase.bank];
      banks := banks[purchase.bank := bank.(balance := bank.balance + bankProfit)];
      companies := companies[document.company := company.(balance := company.balance + convertedReceivedValue)];
      documents := documents[purchase.document := document.(state := PAID)];
      purchases := purchases[purchaseId := purchase.(state := PAID, payDate := Some(now))];
    }

    /** tryToBuyByPurchaseDate: pays, in the order the query lists them, the PENDING purchases
        whose purchase day started strictly before now.  The source has no handler around the
        payment, so a failing one ends the sweep: from then on nothing is touched.  The sweep
        in fact never fails, and pays exactly the due PENDING purchases. */
    method TryToBuyByPurchaseDate(now: DateTime, convert: Converter)
      returns (r: Result<(), Error>, ghost listed: seq<PurchaseId>)
      requires Valid()
      modifies this
      ensures Valid()
      ensures Distinct(listed) && Elements(listed) == PendingIds(old(Records()))
      ensures forall id :: id in listed ==> id in old(purchases) && old(purchases)[id].state == PENDING
      ensures Step(r, Records()) == Sweep(old(Records()), listed, now, convert)
      ensures r.Success?
      ensures SweptThrough(old(Records()), Records(), PendingIds(old(Records())), now)
      ensures Credited(old(Records()), Records(), listed, now, convert)
      ensures rateFetches <= old(rateFetches) + |listed|
    {
      ghost var start := Records();
      var pending := Enumerate(PendingIds(Records()));
      listed := pending;
      ListedPending(start, pending);
      r := PayListed(pending, now, convert);
      SweepPaysDue(start, pending, now, convert);
    }

    /** The loop of tryToBuyByPurchaseDate over the purchases the query listed, in order. */
    method PayListed(pending: seq<PurchaseId>, now: DateTime, convert: Converter)
      returns (r: Result<(), Error>)
      requires Valid()
      requires forall id :: id in pending ==> id in purchases
      modifies this
      ensures Valid()
      ensures Step(r, Records()) == Sweep(old(Records()), pending, now, convert)
      ensures rateFetches <= old(rateFetches) + |pending|
    {
      ghost var start := Records();
      var loaded := purchases;
      var loadedBanks := banks;
      r := Success(());
      var i := 0;
      while i < |pending|
        invariant 0 <= i <= |pending|
        invariant Valid()
        invariant forall id :: id in pending ==> id in start.purchases
        invariant Step(r, Records()) == Sweep(start, pending[..i], now, convert)
        invariant rateFetches <= old(rateFetches) + i
      {
        r := SweepOne(start, loaded, loadedBanks, pending, i, r, now, convert);
        i := i + 1;
      }
      assert pending[..i] == pending;
    }

    /** One step of tryToBuyByPurchaseDate: the purchase at position i of the listing is paid
        when the sweep has not failed so far and the purchase is due. */
    method SweepOne(ghost start: Books, loaded: map<PurchaseId, Purchase>, loadedBanks: map<BankId, Bank>,
                    pending: seq<PurchaseId>, i: nat, sofar: Result<(), Error>, now: DateTime, convert: Converter)
      returns (r: Result<(), Error>)
      requires Valid() && Ledger.Valid(start) && i < |pending|
      requires loaded == start.purchases && loadedBanks == start.banks
      requires forall id :: id in pending ==> id in start.purchases
      requires Step(sofar, Records()) == Sweep(start, pending[..i], now, convert)
      modifies this
      ensures Valid()
      ensures Step(r, Records()) == Sweep(start, pending[..i + 1], now, convert)
      ensures rateFetches <= old(rateFetches) + 1
    {
      ghost var prev := Step(sofar, Records());
      SweepNext(start, pending, i, now, convert);
      var purchase := loaded[pending[i]];
      r := sofar;
      if sofar.Success? && Due(purchase, now) {
        var username := loadedBanks[purchase.bank].username;
        r := PayDocument(username, pending[i], now, convert);
        assert Step(r, Records()) == Payment(prev.books, username, pending[i], now, convert);
      }
    }

    /** getPurchasesBySpecificState: the purchases of the company or the bank of the username,
        of the given state when one is given, in ascending order of identifier. */
    method GetPurchasesBySpecificState(username: string, role: Role, state: Option<State>)
      returns (r: Result<seq<PurchasedDocument>, Error>)
      requires Valid()
      ensures r.Failure? <==> OwnerOf(Records(), username, role).Failure?
      ensures r.Failure? ==> r == Failure(OwnerOf(Records(), username, role).error)
      ensures r.Success? ==>
        (forall k :: 0 <= k < |r.value| ==>
          r.value[k].id.Some? && r.value[k].id.value in purchases &&
          r.value[k].purchase == purchases[r.value[k].id.value]) &&
        Increasing(IdsOf(r.value)) &&
        Elements(IdsOf(r.value)) == Matching(Records(), OwnerOf(Records(), username, role).value, state)
    {
      var owner: Owner;
      match role {
        case COMPANY =>
          var company := CompanyByUsername(companies, username);
          if company.None? {
            return Failure(CompanyNotFound);
          }
          owner := OfCompany(company.value);
        case BANK =>
          var bank := BankByUsername(banks, username);
          if bank.None? {
            return Failure(BankNotFound);
          }
          owner := OfBank(bank.value);
      }
      assert owner == OwnerOf(Records(), username, role).value;
      var found := Enumerate(Matching(Records(), owner, state));
      forall id | id in found
        ensures id in purchases
      {
        assert id in Elements(found);
      }
      var entries := SortedEntries(found, purchases);
      r := Success(entries);
    }
  }

  /** The listing of getPurchasesBySpecificState built from the rows the query found: sorted
      by ascending identifier and turned into entries with identifiers. */
  method SortedEntries(found: seq<PurchaseId>, records: map<PurchaseId, Purchase>)
    returns (entries: seq<PurchasedDocument>)
    requires Distinct(found)
    requires forall id :: id in found ==> id in records
    ensures forall k :: 0 <= k < |entries| ==>
      entries[k].id.Some? && entries[k].id.value in records && entries[k].purchase == records[entries[k].id.value]
    ensures Increasing(IdsOf(entries))
    ensures Elements(IdsOf(entries)) == Elements(found)
  {
    if |found| == 0 {
      return [];
    }
    var a := new PurchaseId[|found|](k requires 0 <= k < |found| => found[k]);
    assert a[..] == found;
    SortById(a);
    var sorted := a[..];
    SortedPermutation(found, sorted);
    forall k | 0 <= k < |sorted|
      ensures sorted[k] in records
    {
      assert sorted[k] in Elements(sorted);
    }
    var rows := seq(|sorted|, k requires 0 <= k < |sorted| => (sorted[k], records[sorted[k]]));
    entries := ToPurchasedDocuments(rows, true);
    assert IdsOf(entries) == sorted;
  }

  /** A sorted rearrangement of a list without repetitions is increasing, and has the same
      elements. */
  lemma SortedPermutation(found: seq<PurchaseId>, sorted: seq<PurchaseId>)
    requires Distinct(found)
    requires multiset(sorted) == multiset(found)
    requires Ascending(sorted)
    ensures Increasing(sorted)
    ensures Elements(sorted) == Elements(found)
  {
    forall x
      ensures x in sorted <==> x in found
    {
      assert x in multiset(sorted) <==> x in multiset(found);
    }
    forall i, j | 0 <= i < j < |sorted|
      ensures sorted[i] < sorted[j]
    {
      RepeatedTwice(sorted, i, j);
      AtMostOnce(found, sorted[i]);
    }
  }

  /** A value at two positions occurs at least twice. */
  lemma RepeatedTwice(s: seq<PurchaseId>, i: nat, j: nat)
    ensures i < j < |s| && s[i] == s[j] ==> multiset(s)[s[i]] >= 2
  {
    if i < j < |s| && s[i] == s[j] {
      var x := s[i];
      assert s == s[..j] + [x] + s[j + 1..];
      assert s[..j][i] == x;
      assert multiset(s[..j])[x] >= 1;
    }
  }

  /** In a list without repetitions every value occurs at most once. */
  lemma {:induction false} AtMostOnce(s: seq<PurchaseId>, x: PurchaseId)
    ensures Distinct(s) ==> multiset(s)[x] <= 1
    decreases |s|
  {
    if |s| > 0 && Distinct(s) {
      var front := s[..|s| - 1];
      assert s == front + [s[|s| - 1]];
      assert Distinct(front);
      AtMostOnce(front, x);
      if s[|s| - 1] == x {
        assert x !in front;
      }
    }
  }
}
