/** The records the purchase settlement engine reads and writes (documents, purchases, banks,
    companies), the consistency the engine keeps between them, and each operation of
    PurchaseService as a function from the records before to the outcome and the records after.
    The class in module Service runs the same operations step by step and is proved to agree. */
module Ledger {
  import opened Outcomes
  import opened Decimals
  import opened RateCalculator

  type DocumentId = nat
  type PurchaseId = nat
  type BankId = nat
  type CompanyId = nat

  /** A currency code; the engine only ever compares two currencies for equality. */
  type Currency = string

  datatype State = AVAILABLE | PENDING | PAID

  datatype RateType = NOMINAL | EFFECTIVE

  datatype Role = COMPANY | BANK

  /** A local date-time: a day number and the time of day in nanoseconds. */
  datatype DateTime = DateTime(day: int, nanoOfDay: nat)

  function StartOfDay(day: int): DateTime
  {
    DateTime(day, 0)
  }

  predicate IsBefore(a: DateTime, b: DateTime)
  {
    a.day < b.day || (a.day == b.day && a.nanoOfDay < b.nanoOfDay)
  }

  datatype Document = Document(company: CompanyId, amount: real, currency: Currency,
                               dueDate: int, state: State)

  datatype Bank = Bank(username: string, balance: real, currency: Currency,
                       nominalRate: Decimal, effectiveRate: Decimal)

  datatype Company = Company(username: string, balance: real, mainCurrency: Currency)

  datatype Purchase = Purchase(
    purchaseDate: int,
    currency: Currency,
    nominalValue: real,
    discountRate: Decimal,
    receivedValue: real,
    days: int,
    tep: Decimal,
    rateType: RateType,
    rateValue: Decimal,
    state: State,
    payDate: Option<DateTime>,
    bank: BankId,
    document: DocumentId)

  /** What a company asks for when it sells a document; an absent rate type stands for a null
      one, which the source rejects (with a NullPointerException) before changing anything. */
  datatype SaleRequest = SaleRequest(documentId: DocumentId, bankId: BankId,
                                     purchaseDate: Option<int>, rateType: Option<RateType>)

  datatype Error =
    | CompanyNotFound
    | DocumentNotFound
    | AlreadySold
    | BankNotFound
    | InvalidRateType
    | DivisionByZero
    | TepNotFinite
    | PurchaseNotFound
    | AlreadyPaid

  /** The four repositories, and the identifier the purchase repository assigns next. */
  datatype Books = Books(
    documents: map<DocumentId, Document>,
    purchases: map<PurchaseId, Purchase>,
    banks: map<BankId, Bank>,
    companies: map<CompanyId, Company>,
    nextPurchaseId: nat)

  /** The outcome of an operation and the records after it. */
  datatype Step<+T> = Step(result: Result<T, Error>, books: Books)

  /** PurchaseUtils.convertCurrency with the day's exchange rates: amount, from, to. */
  type Converter = (real, Currency, Currency) -> real

  /** calculateTep: the TEP of a nominal rate over a number of days.  None when the power
      overflows the double range, where BigDecimal.valueOf throws a NumberFormatException. */
  type TepCalculator = (Decimal, int) -> Option<Decimal>

  ghost predicate UniqueBankUsernames(banks: map<BankId, Bank>)
  {
    forall i, j :: i in banks && j in banks && banks[i].username == banks[j].username ==> i == j
  }

  ghost predicate UniqueCompanyUsernames(companies: map<CompanyId, Company>)
  {
    forall i, j ::
      i in companies && j in companies && companies[i].username == companies[j].username ==> i == j
  }

  /** The consistency of the records: every reference resolves, usernames identify banks and
      companies, purchase identifiers lie below the next one to be assigned, each document has
      at most one purchase, whose state it shares, and a purchase has a pay date once paid. */
  ghost predicate Valid(b: Books)
  {
    UniqueBankUsernames(b.banks) &&
    UniqueCompanyUsernames(b.companies) &&
    (forall d :: d in b.documents ==> b.documents[d].company in b.companies) &&
    (forall id :: id in b.purchases ==> PurchaseConsistent(b, id)) &&
    (forall i, j ::
      i in b.purchases && j in b.purchases && b.purchases[i].document == b.purchases[j].document ==> i == j)
  }

  ghost predicate PurchaseConsistent(b: Books, id: PurchaseId)
    requires id in b.purchases
  {
    var p := b.purchases[id];
    id < b.nextPurchaseId &&
    p.bank in b.banks &&
    p.document in b.documents &&
    p.state != AVAILABLE &&
    b.documents[p.document].state == p.state &&
    (p.payDate.Some? <==> p.state == PAID)
  }

  /** companyRepository.findByUsername */
  function CompanyByUsername(companies: map<CompanyId, Company>, username: string): (r: Option<CompanyId>)
    requires UniqueCompanyUsernames(companies)
    ensures r.Some? ==> r.value in companies && companies[r.value].username == username
    ensures r.None? ==> forall id :: id in companies ==> companies[id].username != username
  {
    if exists id :: id in companies && companies[id].username == username then
      var id :| id in companies && companies[id].username == username;
      Some(id)
    else
      None
  }

  /** bankRepository.findByUsername */
  function BankByUsername(banks: map<BankId, Bank>, username: string): (r: Option<BankId>)
    requires UniqueBankUsernames(banks)
    ensures r.Some? ==> r.value in banks && banks[r.value].username == username
    ensures r.None? ==> forall id :: id in banks ==> banks[id].username != username
  {
    if exists id :: id in banks && banks[id].username == username then
      var id :| id in banks && banks[id].username == username;
      Some(id)
    else
      None
  }

  /** The narrowing (int) cast of a long: the value modulo 2^32, in the signed 32-bit range. */
  function ToInt32(x: int): (r: int)
    ensures -0x8000_0000 <= r < 0x8000_0000
    ensures (x - r) % 0x1_0000_0000 == 0
    ensures -0x8000_0000 <= x < 0x8000_0000 ==> r == x
  {
    (x + 0x8000_0000) % 0x1_0000_0000 - 0x8000_0000
  }

  // ---------------------------------------------------------------- sale

  /** The checks of sellDocument that come before any computation: the company of the username,
      the document of that company, a document not yet sold, and the bank. */
  function SaleParties(b: Books, username: string, req: SaleRequest): (r: Result<(CompanyId, Document, Bank), Error>)
    requires Valid(b)
    ensures r.Success? <==>
      req.documentId in b.documents &&
      b.companies[b.documents[req.documentId].company].username == username &&
      b.documents[req.documentId].state == AVAILABLE &&
      req.bankId in b.banks
    ensures r.Success? ==>
      var (c, doc, bank) := r.value;
      c in b.companies && b.companies[c].username == username &&
      doc == b.documents[req.documentId] && doc.company == c && bank == b.banks[req.bankId]
  {
    match CompanyByUsername(b.companies, username)
    case None => Failure(CompanyNotFound)
    case Some(c) =>
      if req.documentId !in b.documents || b.documents[req.documentId].company != c then
        Failure(DocumentNotFound)
      else
        var doc := b.documents[req.documentId];
        if doc.state == PENDING || doc.state == PAID then Failure(AlreadySold)
        else if req.bankId !in b.banks then Failure(BankNotFound)
        else
          assert b.companies[doc.company].username == username;
          assert doc.state == AVAILABLE;
          Success((c, doc, b.banks[req.bankId]))
  }

  /** The face amount in the bank's currency: converted only when the currencies differ. */
  function NominalValue(doc: Document, bank: Bank, convert: Converter): real
  {
    if doc.currency != bank.currency then convert(doc.amount, doc.currency, bank.currency)
    else doc.amount
  }

  /** The purchase a sale creates: purchase day, holding period, TEP by rate type, discount rate
      and received value.  Fails for a missing rate type, for a TEP calculateTep can not
      represent, and when 1 + TEP is zero. */
  function NewPurchase(docId: DocumentId, doc: Document, bankId: BankId, bank: Bank, req: SaleRequest,
                       now: DateTime, tepOf: TepCalculator, convert: Converter): Result<Purchase, Error>
  {
    var nominalValue := NominalValue(doc, bank, convert);
    var purchaseDay := req.purchaseDate.GetOr(now.day);
    var days := ToInt32(doc.dueDate - purchaseDay);
    match req.rateType
    case None => Failure(InvalidRateType)
    case Some(rateType) =>
      var tep := TepFor(rateType, bank, days, tepOf);
      var rateUsed := if rateType == NOMINAL then bank.nominalRate else bank.effectiveRate;
      if tep.None? then Failure(TepNotFinite)
      else
        match DiscountRate(tep.value)
        case None => Failure(DivisionByZero)
        case Some(discountRate) =>
          Success(Purchase(purchaseDay, bank.currency, nominalValue, discountRate,
                           ReceivedValue(nominalValue, discountRate), days, tep.value, rateType, rateUsed,
                           PENDING, None, bankId, docId))
  }

  /** The TEP of a sale by rate type: calculateTep of the bank's nominal rate over the holding
      period, or the bank's effective rate as it is. */
  function TepFor(rateType: RateType, bank: Bank, days: int, tepOf: TepCalculator): Option<Decimal>
  {
    match rateType
    case NOMINAL => tepOf(bank.nominalRate, days)
    case EFFECTIVE => Some(bank.effectiveRate)
  }

  /** sellDocument: on success the document becomes PENDING and one PENDING purchase is added
      under the next identifier; every failure leaves the records as they were. */
  function Sale(b: Books, username: string, req: SaleRequest, now: DateTime,
                tepOf: TepCalculator, convert: Converter): (s: Step<PurchaseId>)
    requires Valid(b)
    ensures s.result.Failure? ==> s.books == b
  {
    match SaleParties(b, username, req)
    case Failure(e) => Step(Failure(e), b)
    case Success((_, doc, bank)) =>
      match NewPurchase(req.documentId, doc, req.bankId, bank, req, now, tepOf, convert)
      case Failure(e) => Step(Failure(e), b)
      case Success(p) => Step(Success(b.nextPurchaseId), Sold(b, req.documentId, p))
  }

  /** The records once a sale is saved: the document PENDING, the purchase under the next
      identifier. */
  function Sold(b: Books, documentId: DocumentId, p: Purchase): Books
    requires documentId in b.documents
  {
    b.(documents := b.documents[documentId := b.documents[documentId].(state := PENDING)],
       purchases := b.purchases[b.nextPurchaseId := p],
       nextPurchaseId := b.nextPurchaseId + 1)
  }

  /** A sale whose guards fail. */
  lemma SaleRejected(b: Books, username: string, req: SaleRequest, now: DateTime,
                     tepOf: TepCalculator, convert: Converter)
    requires Valid(b) && SaleParties(b, username, req).Failure?
    ensures Sale(b, username, req, now, tepOf, convert) == Step(Failure(SaleParties(b, username, req).error), b)
  {
  }

  /** A sale whose guards pass but whose terms can not be computed. */
  lemma SaleTermsRejected(b: Books, username: string, req: SaleRequest, now: DateTime,
                          tepOf: TepCalculator, convert: Converter)
    requires Valid(b) && SaleParties(b, username, req).Success?
    requires NewPurchase(req.documentId, b.documents[req.documentId], req.bankId, b.banks[req.bankId],
                         req, now, tepOf, convert).Failure?
    ensures Sale(b, username, req, now, tepOf, convert) ==
      Step(Failure(NewPurchase(req.documentId, b.documents[req.documentId], req.bankId, b.banks[req.bankId],
                               req, now, tepOf, convert).error), b)
  {
  }

  /** A sale that goes through, and the consistent records it leaves. */
  lemma SaleAccepted(b: Books, username: string, req: SaleRequest, now: DateTime,
                     tepOf: TepCalculator, convert: Converter, p: Purchase)
    requires Valid(b) && SaleParties(b, username, req).Success?
    requires NewPurchase(req.documentId, b.documents[req.documentId], req.bankId, b.banks[req.bankId],
                         req, now, tepOf, convert) == Success(p)
    ensures Sale(b, username, req, now, tepOf, convert) == Step(Success(b.nextPurchaseId), Sold(b, req.documentId, p))
    ensures Valid(Sold(b, req.documentId, p))
  {
    SaleValid(b, username, req, now, tepOf, convert);
  }

  /** A sale keeps the records consistent. */
  lemma SaleValid(b: Books, username: string, req: SaleRequest, now: DateTime,
                  tepOf: TepCalculator, convert: Converter)
    requires Valid(b)
    ensures Valid(Sale(b, username, req, now, tepOf, convert).books)
  {
    var s := Sale(b, username, req, now, tepOf, convert);
    if s.result.Success? {
      SaleOutcome(b, username, req, now, tepOf, convert);
      NewPurchaseTerms(req.documentId, b.documents[req.documentId], req.bankId, b.banks[req.bankId], req,
                       now, tepOf, convert);
      SaleKeepsValid(b, req.documentId, s.result.value, s.books.purchases[s.result.value], s.books);
    }
  }

  lemma SaleKeepsValid(b: Books, docId: DocumentId, id: PurchaseId, p: Purchase, after: Books)
    requires Valid(b)
    requires docId in b.documents && b.documents[docId].state == AVAILABLE
    requires id == b.nextPurchaseId
    requires p.state == PENDING && p.payDate.None? && p.document == docId && p.bank in b.banks
    requires after == b.(documents := b.documents[docId := b.documents[docId].(state := PENDING)],
                         purchases := b.purchases[id := p],
                         nextPurchaseId := id + 1)
    ensures Valid(after)
  {
    forall i | i in b.purchases
      ensures b.purchases[i].document != docId
    {
      assert PurchaseConsistent(b, i);
    }
    forall i | i in after.purchases
      ensures PurchaseConsistent(after, i)
    {
      if i != id {
        assert PurchaseConsistent(b, i);
      }
      SoldStaysConsistent(b, docId, id, p, after, i);
    }
  }

  /** One purchase after a sale: the new one is PENDING like its document, every other one
      keeps its own document, which the sale did not touch. */
  lemma SoldStaysConsistent(b: Books, docId: DocumentId, id: PurchaseId, p: Purchase, after: Books, i: PurchaseId)
    requires docId in b.documents && id == b.nextPurchaseId
    requires p.state == PENDING && p.payDate.None? && p.document == docId && p.bank in b.banks
    requires after.documents == b.documents[docId := b.documents[docId].(state := PENDING)]
    requires after.purchases == b.purchases[id := p] && after.nextPurchaseId == id + 1
    requires after.banks == b.banks
    requires i in after.purchases
    requires i != id ==> i in b.purchases && PurchaseConsistent(b, i) && b.purchases[i].document != docId
    ensures PurchaseConsistent(after, i)
  {
  }

  // ---------------------------------------------------------------- payment

  /** payDocument: the guards (the bank of the username, a purchase of that bank, not yet PAID),
      then the settlement; every failure leaves the records as they were. */
  function Payment(b: Books, username: string, purchaseId: PurchaseId, now: DateTime,
                   convert: Converter): (s: Step<()>)
    requires Valid(b)
    ensures s.result.Failure? ==> s.books == b
  {
    match BankByUsername(b.banks, username)
    case None => Step(Failure(BankNotFound), b)
    case Some(bankId) =>
      if purchaseId !in b.purchases || b.purchases[purchaseId].bank != bankId then
        Step(Failure(PurchaseNotFound), b)
      else if b.purchases[purchaseId].state == PAID then
        Step(Failure(AlreadyPaid), b)
      else
        assert PurchaseConsistent(b, purchaseId);
        Step(Success(()), Settle(b, purchaseId, now, convert))
  }

  /** A payment whose guards pass: the purchase's records all exist, the payment is its
      settlement, and the settlement leaves the records consistent. */
  lemma PaymentAccepted(b: Books, username: string, purchaseId: PurchaseId, now: DateTime, convert: Converter)
    requires Valid(b)
    requires BankByUsername(b.banks, username).Some?
    requires purchaseId in b.purchases && b.purchases[purchaseId].bank == BankByUsername(b.banks, username).value
    requires b.purchases[purchaseId].state != PAID
    ensures PurchaseConsistent(b, purchaseId) && Settleable(b, purchaseId)
    ensures Payment(b, username, purchaseId, now, convert) == Step(Success(()), Settle(b, purchaseId, now, convert))
    ensures Valid(Settle(b, purchaseId, now, convert))
    ensures PaymentFetchesRate(b, username, purchaseId) <==>
      b.purchases[purchaseId].currency != b.companies[b.documents[b.purchases[purchaseId].document].company].mainCurrency
  {
    assert PurchaseConsistent(b, purchaseId);
    SettlePreserves(b, purchaseId, now, convert);
  }

  /** What an operation keeps: the consistency of the records, which records exist, the next
      purchase identifier and the usernames. */
  ghost predicate Preserves(b: Books, after: Books)
  {
    Valid(after) &&
    after.purchases.Keys == b.purchases.Keys && after.documents.Keys == b.documents.Keys &&
    after.banks.Keys == b.banks.Keys && after.companies.Keys == b.companies.Keys &&
    after.nextPurchaseId == b.nextPurchaseId &&
    (forall k :: k in b.banks ==> after.banks[k].username == b.banks[k].username) &&
    (forall c :: c in b.companies ==> after.companies[c].username == b.companies[c].username)
  }

  /** The settlement of a PENDING purchase: the bank is credited with nominal - received, the
      company of the document with the received value, converted when the purchase currency
      is not its main currency, and the purchase and its document become PAID, paid now. */
  function Settle(b: Books, purchaseId: PurchaseId, now: DateTime, convert: Converter): Books
    requires Settleable(b, purchaseId)
  {
    var p := b.purchases[purchaseId];
    var bank := b.banks[p.bank];
    var doc := b.documents[p.document];
    var company := b.companies[doc.company];
    var convertedReceivedValue := CompanyCredit(p, company, convert);
    var bankProfit := p.nominalValue - p.receivedValue;
    b.(banks := b.banks[p.bank := bank.(balance := bank.balance + bankProfit)],
       companies := b.companies[doc.company := company.(balance := company.balance + convertedReceivedValue)],
       documents := b.documents[p.document := doc.(state := PAID)],
       purchases := b.purchases[purchaseId := p.(state := PAID, payDate := Some(now))])
  }

  lemma UpdateKeepsKeys<K, V>(m: map<K, V>, k: K, v: V)
    requires k in m
    ensures m[k := v].Keys == m.Keys
  {
  }

  /** The records a settlement of the purchase touches all exist. */
  ghost predicate Settleable(b: Books, purchaseId: PurchaseId)
  {
    purchaseId in b.purchases &&
    b.purchases[purchaseId].bank in b.banks &&
    b.purchases[purchaseId].document in b.documents &&
    b.documents[b.purchases[purchaseId].document].company in b.companies
  }

  /** A settlement adds and removes no record and changes no identifier or username. */
  lemma SettleShape(b: Books, purchaseId: PurchaseId, now: DateTime, convert: Converter)
    requires Settleable(b, purchaseId)
    ensures var after := Settle(b, purchaseId, now, convert);
      after.purchases.Keys == b.purchases.Keys && after.documents.Keys == b.documents.Keys &&
      after.banks.Keys == b.banks.Keys && after.companies.Keys == b.companies.Keys &&
      after.nextPurchaseId == b.nextPurchaseId &&
      (forall k :: k in b.banks ==> after.banks[k].username == b.banks[k].username) &&
      (forall c :: c in b.companies ==> after.companies[c].username == b.companies[c].username)
  {
    var after := Settle(b, purchaseId, now, convert);
    var p := b.purchases[purchaseId];
    var c := b.documents[p.document].company;
    UpdateKeepsKeys(b.banks, p.bank, after.banks[p.bank]);
    UpdateKeepsKeys(b.companies, c, after.companies[c]);
    UpdateKeepsKeys(b.documents, p.document, after.documents[p.document]);
    UpdateKeepsKeys(b.purchases, purchaseId, after.purchases[purchaseId]);
  }

  /** A payment keeps the records consistent and changes no key, identifier or username. */
  lemma PaymentPreserves(b: Books, username: string, purchaseId: PurchaseId, now: DateTime, convert: Converter)
    requires Valid(b)
    ensures Preserves(b, Payment(b, username, purchaseId, now, convert).books)
  {
    if Payment(b, username, purchaseId, now, convert).result.Success? {
      PaymentSettles(b, username, purchaseId, now, convert);
      SettlePreserves(b, purchaseId, now, convert);
    }
  }

  lemma SettlePreserves(b: Books, purchaseId: PurchaseId, now: DateTime, convert: Converter)
    requires Valid(b) && purchaseId in b.purchases && b.purchases[purchaseId].state == PENDING
    ensures Preserves(b, Settle(b, purchaseId, now, convert))
  {
    SettleEffect(b, purchaseId, now, convert);
    SettleShape(b, purchaseId, now, convert);
    PaymentKeepsValid(b, purchaseId, now, Settle(b, purchaseId, now, convert));
  }

  lemma PaymentKeepsValid(b: Books, id: PurchaseId, now: DateTime, after: Books)
    requires Valid(b) && id in b.purchases && PurchaseConsistent(b, id)
    requires var p := b.purchases[id];
      after.purchases == b.purchases[id := p.(state := PAID, payDate := Some(now))] &&
      after.documents == b.documents[p.document := b.documents[p.document].(state := PAID)] &&
      after.nextPurchaseId == b.nextPurchaseId &&
      after.banks.Keys == b.banks.Keys && after.companies.Keys == b.companies.Keys &&
      (forall k :: k in b.banks ==> after.banks[k].username == b.banks[k].username) &&
      (forall c :: c in b.companies ==> after.companies[c].username == b.companies[c].username)
    ensures Valid(after)
  {
    SameUsernamesUnique(b, after);
    assert forall i :: i in after.purchases ==> after.purchases[i].document == b.purchases[i].document;
    forall i | i in after.purchases
      ensures PurchaseConsistent(after, i)
    {
      assert PurchaseConsistent(b, i);
      PaidStaysConsistent(b, id, now, after, i);
    }
  }

  /** One purchase after a payment: the paid one and its document are both PAID, every other
      one keeps its own document, which the payment did not touch. */
  lemma PaidStaysConsistent(b: Books, id: PurchaseId, now: DateTime, after: Books, i: PurchaseId)
    requires id in b.purchases && PurchaseConsistent(b, id)
    requires i in b.purchases && PurchaseConsistent(b, i)
    requires i != id ==> b.purchases[i].document != b.purchases[id].document
    requires var p := b.purchases[id];
      after.purchases == b.purchases[id := p.(state := PAID, payDate := Some(now))] &&
      after.documents == b.documents[p.document := b.documents[p.document].(state := PAID)] &&
      after.nextPurchaseId == b.nextPurchaseId && after.banks.Keys == b.banks.Keys
    ensures PurchaseConsistent(after, i)
  {
  }

  lemma SameUsernamesUnique(b: Books, after: Books)
    requires UniqueBankUsernames(b.banks) && UniqueCompanyUsernames(b.companies)
    requires after.banks.Keys == b.banks.Keys && after.companies.Keys == b.companies.Keys
    requires forall k :: k in b.banks ==> after.banks[k].username == b.banks[k].username
    requires forall c :: c in b.companies ==> after.companies[c].username == b.companies[c].username
    ensures UniqueBankUsernames(after.banks) && UniqueCompanyUsernames(after.companies)
  {
  }

  // ---------------------------------------------------------------- sweep

  /** tryToBuyByPurchaseDate pays a listed purchase when its purchase date, at the start of the
      day, lies before now. */
  predicate Due(p: Purchase, now: DateTime)
  {
    IsBefore(StartOfDay(p.purchaseDate), now)
  }

  /** tryToBuyByPurchaseDate over the purchases the repository listed as PENDING, in the order
      listed: each due one is paid through payDocument with its bank's username.  A failing
      payment ends the sweep (the source has no handler around the call); the payments before
      it stay done. */
  function Sweep(b: Books, listed: seq<PurchaseId>, now: DateTime, convert: Converter): (s: Step<()>)
    requires Valid(b)
    requires forall id :: id in listed ==> id in b.purchases
    ensures Preserves(b, s.books)
    decreases |listed|
  {
    if |listed| == 0 then Step(Success(()), b)
    else
      var prev := Sweep(b, listed[..|listed| - 1], now, convert);
      var id := listed[|listed| - 1];
      var p := b.purchases[id];
      assert PurchaseConsistent(b, id);
      if prev.result.Failure? || !Due(p, now) then prev
      else
        PaymentPreserves(prev.books, b.banks[p.bank].username, id, now, convert);
        Payment(prev.books, b.banks[p.bank].username, id, now, convert)
  }

  // ---------------------------------------------------------------- properties of a sale

  /** The guards of sellDocument, in the order the source checks them: each rejection names
      the first check that fails, and a rejected sale changes nothing. */
  lemma SaleGuard(b: Books, username: string, req: SaleRequest, now: DateTime,
                  tepOf: TepCalculator, convert: Converter)
    requires Valid(b)
    ensures var s := Sale(b, username, req, now, tepOf, convert);
      (s.result.Failure? ==> s.books == b) &&
      ((forall c :: c in b.companies ==> b.companies[c].username != username) ==>
         s.result == Failure(CompanyNotFound)) &&
      ((exists c :: c in b.companies && b.companies[c].username == username) &&
       (req.documentId !in b.documents || b.companies[b.documents[req.documentId].company].username != username) ==>
         s.result == Failure(DocumentNotFound)) &&
      (req.documentId in b.documents && b.companies[b.documents[req.documentId].company].username == username &&
       b.documents[req.documentId].state != AVAILABLE ==>
         s.result == Failure(AlreadySold)) &&
      (req.documentId in b.documents && b.companies[b.documents[req.documentId].company].username == username &&
       b.documents[req.documentId].state == AVAILABLE && req.bankId !in b.banks ==>
         s.result == Failure(BankNotFound)) &&
      (s.result.Success? ==>
         req.documentId in b.documents && b.documents[req.documentId].state == AVAILABLE &&
         req.bankId in b.banks && req.rateType.Some?)
    ensures var s := Sale(b, username, req, now, tepOf, convert);
      SaleParties(b, username, req).Success? ==>
        var doc := b.documents[req.documentId];
        var tep := if req.rateType.None? then None
                   else TepFor(req.rateType.value, b.banks[req.bankId],
                               ToInt32(doc.dueDate - req.purchaseDate.GetOr(now.day)), tepOf);
        (req.rateType.None? ==> s.result == Failure(InvalidRateType)) &&
        (req.rateType.Some? && tep.None? ==> s.result == Failure(TepNotFinite)) &&
        (tep.Some? && DiscountRate(tep.value).None? ==> s.result == Failure(DivisionByZero)) &&
        (tep.Some? && DiscountRate(tep.value).Some? ==> s.result == Success(b.nextPurchaseId))
  {
    var c := CompanyByUsername(b.companies, username);
    if c.Some? && req.documentId in b.documents {
      assert b.documents[req.documentId].company in b.companies;
    }
  }

  /** What a successful sale leaves behind: the document PENDING, exactly one new purchase
      under a fresh identifier, the one NewPurchase computes, and nothing else changed. */
  lemma SaleOutcome(b: Books, username: string, req: SaleRequest, now: DateTime,
                    tepOf: TepCalculator, convert: Converter)
    requires Valid(b)
    requires Sale(b, username, req, now, tepOf, convert).result.Success?
    ensures req.documentId in b.documents && req.bankId in b.banks
    ensures b.documents[req.documentId].state == AVAILABLE
    ensures var s := Sale(b, username, req, now, tepOf, convert);
      var id := s.result.value;
      var doc := b.documents[req.documentId];
      id == b.nextPurchaseId && id !in b.purchases &&
      NewPurchase(req.documentId, doc, req.bankId, b.banks[req.bankId], req, now, tepOf, convert)
        == Success(s.books.purchases[id]) &&
      s.books.purchases == b.purchases[id := s.books.purchases[id]] &&
      s.books.documents == b.documents[req.documentId := doc.(state := PENDING)] &&
      s.books.banks == b.banks && s.books.companies == b.companies
  {
  }

  /** The terms of the purchase a sale creates: PENDING and unpaid, in the bank's currency,
      linked to that bank and that document; the nominal value is the face amount unless the
      currencies differ; the TEP and rate value follow the rate type; the discount rate is
      calculateDiscountRate of the TEP and the received value calculateReceivedValue. */
  lemma NewPurchaseTerms(docId: DocumentId, doc: Document, bankId: BankId, bank: Bank, req: SaleRequest,
                         now: DateTime, tepOf: TepCalculator, convert: Converter)
    requires NewPurchase(docId, doc, bankId, bank, req, now, tepOf, convert).Success?
    ensures var p := NewPurchase(docId, doc, bankId, bank, req, now, tepOf, convert).value;
      p.state == PENDING && p.payDate.None? &&
      p.currency == bank.currency && p.bank == bankId && p.document == docId &&
      p.purchaseDate == req.purchaseDate.GetOr(now.day) &&
      p.days == ToInt32(doc.dueDate - p.purchaseDate) &&
      (doc.currency == bank.currency ==> p.nominalValue == doc.amount) &&
      (doc.currency != bank.currency ==> p.nominalValue == convert(doc.amount, doc.currency, bank.currency)) &&
      req.rateType == Some(p.rateType) &&
      (p.rateType == EFFECTIVE ==> p.tep == bank.effectiveRate && p.rateValue == bank.effectiveRate) &&
      (p.rateType == NOMINAL ==> tepOf(bank.nominalRate, p.days) == Some(p.tep) && p.rateValue == bank.nominalRate) &&
      DiscountRate(p.tep) == Some(p.discountRate) &&
      p.receivedValue == ReceivedValue(p.nominalValue, p.discountRate)
  {
  }

  /** A document that has a purchase can not be sold again, by anyone: the sale is rejected
      and nothing changes. */
  lemma SoldDocumentIsNotSoldAgain(b: Books, purchaseId: PurchaseId, username: string, req: SaleRequest,
                                   now: DateTime, tepOf: TepCalculator, convert: Converter)
    requires Valid(b)
    requires purchaseId in b.purchases && b.purchases[purchaseId].document == req.documentId
    ensures var s := Sale(b, username, req, now, tepOf, convert);
      s.result.Failure? && s.books == b
    ensures var s := Sale(b, username, req, now, tepOf, convert);
      s.result != Failure(DocumentNotFound) && s.result != Failure(CompanyNotFound) ==>
        s.result == Failure(AlreadySold)
  {
    assert PurchaseConsistent(b, purchaseId);
  }

  /** No double sale: once a sale of a document succeeded, every later sale of it fails and
      leaves the records unchanged. */
  lemma NoDoubleSale(b: Books, username: string, req: SaleRequest, now: DateTime,
                     tepOf: TepCalculator, convert: Converter,
                     username2: string, req2: SaleRequest, now2: DateTime,
                     tepOf2: TepCalculator, convert2: Converter)
    requires Valid(b)
    requires Sale(b, username, req, now, tepOf, convert).result.Success?
    requires req2.documentId == req.documentId
    ensures Valid(Sale(b, username, req, now, tepOf, convert).books)
    ensures var b1 := Sale(b, username, req, now, tepOf, convert).books;
      var s2 := Sale(b1, username2, req2, now2, tepOf2, convert2);
      s2.result.Failure? && s2.books == b1 &&
      (username2 == username ==> s2.result == Failure(AlreadySold))
  {
    var s := Sale(b, username, req, now, tepOf, convert);
    SaleOutcome(b, username, req, now, tepOf, convert);
    SaleValid(b, username, req, now, tepOf, convert);
    SoldDocumentIsNotSoldAgain(s.books, s.result.value, username2, req2, now2, tepOf2, convert2);
    if username2 == username {
      SaleGuard(b, username, req, now, tepOf, convert);
      var c := CompanyByUsername(b.companies, username);
      assert c.Some?;
    }
  }

  // ---------------------------------------------------------------- properties of a payment

  /** The guards of payDocument: it succeeds exactly for a purchase of the paying bank that is
      not yet PAID, each rejection names the first check that fails, and changes nothing. */
  lemma PaymentGuard(b: Books, username: string, purchaseId: PurchaseId, now: DateTime, convert: Converter)
    requires Valid(b)
    ensures var s := Payment(b, username, purchaseId, now, convert);
      (s.result.Failure? ==> s.books == b) &&
      ((forall k :: k in b.banks ==> b.banks[k].username != username) ==> s.result == Failure(BankNotFound)) &&
      ((exists k :: k in b.banks && b.banks[k].username == username) &&
       (purchaseId !in b.purchases || b.banks[b.purchases[purchaseId].bank].username != username) ==>
         s.result == Failure(PurchaseNotFound)) &&
      (s.result.Success? <==>
         purchaseId in b.purchases && b.banks[b.purchases[purchaseId].bank].username == username &&
         b.purchases[purchaseId].state == PENDING) &&
      ((purchaseId in b.purchases && b.banks[b.purchases[purchaseId].bank].username == username &&
        b.purchases[purchaseId].state == PAID) ==> s.result == Failure(AlreadyPaid))
  {
    if purchaseId in b.purchases {
      assert PurchaseConsistent(b, purchaseId);
    }
  }

  /** What a successful payment does: it settles the purchase, which was PENDING. */
  lemma PaymentSettles(b: Books, username: string, purchaseId: PurchaseId, now: DateTime, convert: Converter)
    requires Valid(b)
    requires Payment(b, username, purchaseId, now, convert).result.Success?
    ensures purchaseId in b.purchases && b.purchases[purchaseId].state == PENDING
    ensures b.banks[b.purchases[purchaseId].bank].username == username
    ensures Payment(b, username, purchaseId, now, convert).books == Settle(b, purchaseId, now, convert)
  {
  }

  /** What a settlement does: the bank gains nominal - received, the company of the document
      gains the received value (converted only when its main currency differs), the purchase
      and its document become PAID with pay date now, and nothing else changes. */
  lemma SettleEffect(b: Books, purchaseId: PurchaseId, now: DateTime, convert: Converter)
    requires Valid(b) && purchaseId in b.purchases && b.purchases[purchaseId].state == PENDING
    ensures PurchaseConsistent(b, purchaseId)
    ensures b.documents[b.purchases[purchaseId].document].company in b.companies
    ensures var p := b.purchases[purchaseId];
      var bank := b.banks[p.bank];
      Settle(b, purchaseId, now, convert).banks ==
        b.banks[p.bank := bank.(balance := bank.balance + (p.nominalValue - p.receivedValue))]
    ensures var p := b.purchases[purchaseId];
      var c := b.documents[p.document].company;
      var company := b.companies[c];
      Settle(b, purchaseId, now, convert).companies ==
        b.companies[c := company.(balance := company.balance + CompanyCredit(p, company, convert))]
    ensures var p := b.purchases[purchaseId];
      Settle(b, purchaseId, now, convert).documents ==
        b.documents[p.document := b.documents[p.document].(state := PAID)]
    ensures var p := b.purchases[purchaseId];
      Settle(b, purchaseId, now, convert).purchases == b.purchases[purchaseId := p.(state := PAID, payDate := Some(now))]
    ensures Settle(b, purchaseId, now, convert).nextPurchaseId == b.nextPurchaseId
  {
    assert PurchaseConsistent(b, purchaseId);
  }

  /** What the company of a purchase is credited at payment: the received value, converted to
      the company's main currency only when the purchase currency differs. */
  function CompanyCredit(p: Purchase, company: Company, convert: Converter): real
  {
    if p.currency != company.mainCurrency then convert(p.receivedValue, p.currency, company.mainCurrency)
    else p.receivedValue
  }

  /** Money is conserved when no conversion happens: what the bank and the company gain
      together is the nominal value of the purchase. */
  lemma PaymentConservesMoney(b: Books, username: string, purchaseId: PurchaseId, now: DateTime, convert: Converter)
    requires Valid(b)
    requires Payment(b, username, purchaseId, now, convert).result.Success?
    ensures purchaseId in b.purchases
    ensures var s := Payment(b, username, purchaseId, now, convert);
      var p := b.purchases[purchaseId];
      var c := b.documents[p.document].company;
      p.currency == b.companies[c].mainCurrency ==>
        (s.books.banks[p.bank].balance - b.banks[p.bank].balance) +
        (s.books.companies[c].balance - b.companies[c].balance) == p.nominalValue
  {
    PaymentSettles(b, username, purchaseId, now, convert);
    SettleEffect(b, purchaseId, now, convert);
  }

  /** No double payment: once a payment succeeded, paying the same purchase again fails with
      AlreadyPaid and leaves every balance and state unchanged. */
  lemma NoDoublePayment(b: Books, username: string, purchaseId: PurchaseId, now: DateTime, convert: Converter,
                        now2: DateTime, convert2: Converter)
    requires Valid(b)
    requires Payment(b, username, purchaseId, now, convert).result.Success?
    ensures Preserves(b, Payment(b, username, purchaseId, now, convert).books)
    ensures var b1 := Payment(b, username, purchaseId, now, convert).books;
      Payment(b1, username, purchaseId, now2, convert2) == Step(Failure(AlreadyPaid), b1)
  {
    var b1 := Payment(b, username, purchaseId, now, convert).books;
    PaymentSettles(b, username, purchaseId, now, convert);
    SettleEffect(b, purchaseId, now, convert);
    SettlePreserves(b, purchaseId, now, convert);
    assert b1.purchases[purchaseId].state == PAID;
    PaymentGuard(b1, username, purchaseId, now2, convert2);
  }

  /** A sale followed by its payment, all in one currency and with a non-negative TEP and face
      amount: the bank's gain and the company's gain are both non-negative and add up to the
      face amount of the document. */
  lemma SaleThenPayment(b: Books, username: string, req: SaleRequest, now: DateTime,
                        tepOf: TepCalculator, convert: Converter, payDay: DateTime, convert2: Converter)
    requires Valid(b)
    requires Sale(b, username, req, now, tepOf, convert).result.Success?
    requires req.documentId in b.documents && req.bankId in b.banks
    requires var doc := b.documents[req.documentId];
      doc.amount >= 0.0 && doc.currency == b.banks[req.bankId].currency &&
      doc.currency == b.companies[doc.company].mainCurrency
    requires var s := Sale(b, username, req, now, tepOf, convert);
      s.books.purchases[s.result.value].tep.unscaled >= 0
    ensures Valid(Sale(b, username, req, now, tepOf, convert).books)
    ensures var s := Sale(b, username, req, now, tepOf, convert);
      var bank := b.banks[req.bankId];
      var c := b.documents[req.documentId].company;
      var t := Payment(s.books, bank.username, s.result.value, payDay, convert2);
      t.result.Success? &&
      var bankGain := t.books.banks[req.bankId].balance - bank.balance;
      var companyGain := t.books.companies[c].balance - b.companies[c].balance;
      0.0 <= bankGain && 0.0 <= companyGain &&
      bankGain + companyGain == b.documents[req.documentId].amount
  {
    var s := Sale(b, username, req, now, tepOf, convert);
    var id := s.result.value;
    SaleOutcome(b, username, req, now, tepOf, convert);
    SaleValid(b, username, req, now, tepOf, convert);
    var p := s.books.purchases[id];
    var bank := b.banks[req.bankId];
    NewPurchaseTerms(req.documentId, b.documents[req.documentId], req.bankId, bank, req, now, tepOf, convert);
    PaymentGuard(s.books, bank.username, id, payDay, convert2);
    SettleEffect(s.books, id, payDay, convert2);
    SaleTermsBounds(p.tep, p.nominalValue);
  }

  // ---------------------------------------------------------------- properties of the sweep

  /** The documents of the listed purchases that are due. */
  ghost function SettledDocuments(b: Books, done: set<PurchaseId>, now: DateTime): set<DocumentId>
  {
    set id | id in done && id in b.purchases && Due(b.purchases[id], now) :: b.purchases[id].document
  }

  /** The records after the sweep has gone through the purchases in done: the due ones are
      PAID with pay date now, and so are their documents; every other purchase and document is
      as it was. */
  ghost predicate SweptThrough(b: Books, after: Books, done: set<PurchaseId>, now: DateTime)
  {
    after.purchases.Keys == b.purchases.Keys && after.documents.Keys == b.documents.Keys &&
    (forall id :: id in b.purchases ==>
      after.purchases[id] ==
        if id in done && Due(b.purchases[id], now) then b.purchases[id].(state := PAID, payDate := Some(now))
        else b.purchases[id]) &&
    (forall d :: d in b.documents ==>
      after.documents[d] ==
        if d in SettledDocuments(b, done, now) then b.documents[d].(state := PAID) else b.documents[d])
  }

  /** What a bank is credited by the due purchases of a listing: nominal - received for each
      one of its own. */
  function BankGain(b: Books, listed: seq<PurchaseId>, k: BankId, now: DateTime): real
    decreases |listed|
  {
    if |listed| == 0 then 0.0
    else
      var id := listed[|listed| - 1];
      BankGain(b, listed[..|listed| - 1], k, now) +
      if id in b.purchases && Due(b.purchases[id], now) && b.purchases[id].bank == k
      then b.purchases[id].nominalValue - b.purchases[id].receivedValue
      else 0.0
  }

  /** What a company is credited by the due purchases of a listing: the received value of each
      purchase of one of its documents, converted to its main currency when that differs. */
  function CompanyGain(b: Books, listed: seq<PurchaseId>, c: CompanyId, now: DateTime,
                       convert: Converter): real
    requires c in b.companies
    decreases |listed|
  {
    if |listed| == 0 then 0.0
    else
      var id := listed[|listed| - 1];
      CompanyGain(b, listed[..|listed| - 1], c, now, convert) +
      if id in b.purchases && Due(b.purchases[id], now) && b.purchases[id].document in b.documents &&
         b.documents[b.purchases[id].document].company == c
      then CompanyCredit(b.purchases[id], b.companies[c], convert)
      else 0.0
  }

  /** The banks and companies after the sweep has gone through a listing: each keeps its record
      but for its balance, which has grown by what the due purchases of the listing credit it. */
  ghost predicate Credited(b: Books, after: Books, listed: seq<PurchaseId>, now: DateTime, convert: Converter)
  {
    after.banks.Keys == b.banks.Keys && after.companies.Keys == b.companies.Keys &&
    (forall k :: k in b.banks ==>
      after.banks[k] == b.banks[k].(balance := b.banks[k].balance + BankGain(b, listed, k, now))) &&
    (forall c :: c in b.companies ==>
      after.companies[c] ==
        b.companies[c].(balance := b.companies[c].balance + CompanyGain(b, listed, c, now, convert)))
  }

  /** A bank none of whose purchases is among the due listed ones gains nothing. */
  lemma {:induction false} BankUntouched(b: Books, listed: seq<PurchaseId>, k: BankId, now: DateTime)
    requires forall id :: id in listed && id in b.purchases && Due(b.purchases[id], now) ==> b.purchases[id].bank != k
    ensures BankGain(b, listed, k, now) == 0.0
    decreases |listed|
  {
    if |listed| > 0 {
      var front := listed[..|listed| - 1];
      assert forall id :: id in front ==> id in listed;
      BankUntouched(b, front, k, now);
    }
  }

  /** A company none of whose documents has a purchase among the due listed ones gains
      nothing. */
  lemma {:induction false} CompanyUntouched(b: Books, listed: seq<PurchaseId>, c: CompanyId, now: DateTime,
                                            convert: Converter)
    requires c in b.companies
    requires forall id ::
      (id in listed && id in b.purchases && Due(b.purchases[id], now) && b.purchases[id].document in b.documents) ==>
        b.documents[b.purchases[id].document].company != c
    ensures CompanyGain(b, listed, c, now, convert) == 0.0
    decreases |listed|
  {
    if |listed| > 0 {
      var front := listed[..|listed| - 1];
      assert forall id :: id in front ==> id in listed;
      CompanyUntouched(b, front, c, now, convert);
    }
  }

  /** The sweep over a list of distinct PENDING purchases never fails, and pays exactly the
      due ones among them, crediting their banks and companies. */
  lemma {:induction false} SweepPaysDue(b: Books, listed: seq<PurchaseId>, now: DateTime, convert: Converter)
    requires Valid(b)
    requires Distinct(listed)
    requires forall id :: id in listed ==> id in b.purchases && b.purchases[id].state == PENDING
    ensures Sweep(b, listed, now, convert).result.Success?
    ensures Preserves(b, Sweep(b, listed, now, convert).books)
    ensures SweptThrough(b, Sweep(b, listed, now, convert).books, Elements(listed), now)
    ensures Credited(b, Sweep(b, listed, now, convert).books, listed, now, convert)
    decreases |listed|
  {
    if |listed| == 0 {
      SweepEmpty(b, listed, now, convert);
    } else {
      var front := listed[..|listed| - 1];
      LastIsNew(listed);
      SweepPaysDue(b, front, now, convert);
      SweepLast(b, listed, Elements(front), now, convert);
      SweepCredits(b, listed, Elements(front), now, convert);
    }
  }

  /** The purchases a list names. */
  function Elements(s: seq<PurchaseId>): set<PurchaseId>
  {
    set i | i in s
  }

  /** In a list without repetitions the last element is not among the others. */
  lemma LastIsNew(listed: seq<PurchaseId>)
    requires |listed| > 0
    requires Distinct(listed)
    ensures var n := |listed| - 1;
      listed == listed[..n] + [listed[n]] &&
      (forall i :: i in listed[..n] ==> i in listed) &&
      Distinct(listed[..n]) &&
      listed[n] !in Elements(listed[..n]) &&
      Elements(listed) == Elements(listed[..n]) + {listed[n]}
  {
    var n := |listed| - 1;
    assert listed == listed[..n] + [listed[n]];
    forall k | 0 <= k < n ensures listed[..n][k] != listed[n] {
      assert listed[..n][k] == listed[k];
    }
    forall i, j | 0 <= i < j < n ensures listed[..n][i] != listed[..n][j] {
      assert listed[..n][i] == listed[i] && listed[..n][j] == listed[j];
    }
  }

  lemma SweepEmpty(b: Books, listed: seq<PurchaseId>, now: DateTime, convert: Converter)
    requires Valid(b) && listed == []
    ensures Sweep(b, listed, now, convert) == Step(Success(()), b)
    ensures Preserves(b, b) && SweptThrough(b, b, Elements(listed), now)
  {
    assert SettledDocuments(b, {}, now) == {};
  }

  /** One more listed purchase, not seen before and PENDING: if it is due the sweep pays it,
      otherwise it passes over it. */
  lemma SweepLast(b: Books, listed: seq<PurchaseId>, done: set<PurchaseId>, now: DateTime, convert: Converter)
    requires Valid(b) && |listed| > 0
    requires forall i :: i in listed ==> i in b.purchases
    requires forall i :: i in listed[..|listed| - 1] ==> i in b.purchases
    requires var id := listed[|listed| - 1];
      b.purchases[id].state == PENDING && id !in done
    requires var prev := Sweep(b, listed[..|listed| - 1], now, convert);
      prev.result.Success? && Preserves(b, prev.books) && SweptThrough(b, prev.books, done, now)
    ensures var s := Sweep(b, listed, now, convert);
      s.result.Success? && Preserves(b, s.books) && SweptThrough(b, s.books, done + {listed[|listed| - 1]}, now)
  {
    var front, id := listed[..|listed| - 1], listed[|listed| - 1];
    var prev := Sweep(b, front, now, convert);
    var p := b.purchases[id];
    assert PurchaseConsistent(b, id);
    SweepUnfold(b, listed, now, convert);
    if Due(p, now) {
      SweepPaysLast(b, prev.books, id, done, now, convert);
    } else {
      SweepSkipsLast(b, prev.books, id, done, now);
    }
  }

  /** The balances after one more listed purchase, not seen before and PENDING: when it is due,
      its bank and the company of its document are credited; otherwise nothing changes. */
  lemma SweepCredits(b: Books, listed: seq<PurchaseId>, done: set<PurchaseId>, now: DateTime, convert: Converter)
    requires Valid(b) && |listed| > 0
    requires forall i :: i in listed ==> i in b.purchases
    requires forall i :: i in listed[..|listed| - 1] ==> i in b.purchases
    requires var id := listed[|listed| - 1];
      b.purchases[id].state == PENDING && id !in done
    requires var prev := Sweep(b, listed[..|listed| - 1], now, convert);
      prev.result.Success? && Preserves(b, prev.books) && SweptThrough(b, prev.books, done, now) &&
      Credited(b, prev.books, listed[..|listed| - 1], now, convert)
    ensures Credited(b, Sweep(b, listed, now, convert).books, listed, now, convert)
  {
    var front, id := listed[..|listed| - 1], listed[|listed| - 1];
    var prev := Sweep(b, front, now, convert);
    var p := b.purchases[id];
    assert PurchaseConsistent(b, id);
    SweepUnfold(b, listed, now, convert);
    if Due(p, now) {
      var username := b.banks[p.bank].username;
      assert prev.books.purchases[id] == p;
      assert prev.books.banks[p.bank].username == username;
      SweptKeepsCompany(b, prev.books, done, p.document, now);
      PaymentGuard(prev.books, username, id, now, convert);
      PaymentSettles(prev.books, username, id, now, convert);
      CreditsPayLast(b, prev.books, listed, now, convert);
    } else {
      CreditsSkipLast(b, prev.books, listed, now, convert);
    }
  }

  /** The sweep changes the state of a document, never its company. */
  lemma SweptKeepsCompany(b: Books, after: Books, done: set<PurchaseId>, d: DocumentId, now: DateTime)
    requires SweptThrough(b, after, done, now) && d in b.documents
    ensures d in after.documents && after.documents[d].company == b.documents[d].company
  {
    if d in SettledDocuments(b, done, now) {
      assert after.documents[d] == b.documents[d].(state := PAID);
    } else {
      assert after.documents[d] == b.documents[d];
    }
  }

  lemma CreditsSkipLast(b: Books, prev: Books, listed: seq<PurchaseId>, now: DateTime, convert: Converter)
    requires |listed| > 0
    requires var id := listed[|listed| - 1]; id in b.purchases && !Due(b.purchases[id], now)
    requires Credited(b, prev, listed[..|listed| - 1], now, convert)
    ensures Credited(b, prev, listed, now, convert)
  {
  }

  lemma CreditsPayLast(b: Books, prev: Books, listed: seq<PurchaseId>, now: DateTime, convert: Converter)
    requires |listed| > 0
    requires var id := listed[|listed| - 1];
      id in b.purchases && Due(b.purchases[id], now) &&
      b.purchases[id].document in b.documents && b.documents[b.purchases[id].document].company in b.companies
    requires Credited(b, prev, listed[..|listed| - 1], now, convert)
    requires var id := listed[|listed| - 1];
      id in prev.purchases && prev.purchases[id] == b.purchases[id] && b.purchases[id].bank in b.banks &&
      b.purchases[id].document in prev.documents &&
      prev.documents[b.purchases[id].document].company == b.documents[b.purchases[id].document].company
    ensures Settleable(prev, listed[|listed| - 1])
    ensures Credited(b, Settle(prev, listed[|listed| - 1], now, convert), listed, now, convert)
  {
    var id := listed[|listed| - 1];
    var p := b.purchases[id];
    var c := b.documents[p.document].company;
    assert CompanyCredit(p, prev.companies[c], convert) == CompanyCredit(p, b.companies[c], convert);
  }

  lemma SweepSkipsLast(b: Books, prev: Books, id: PurchaseId, done: set<PurchaseId>, now: DateTime)
    requires id in b.purchases && !Due(b.purchases[id], now)
    requires SweptThrough(b, prev, done, now)
    ensures SweptThrough(b, prev, done + {id}, now)
  {
    assert SettledDocuments(b, done + {id}, now) == SettledDocuments(b, done, now);
  }

  lemma SweepPaysLast(b: Books, prev: Books, id: PurchaseId, done: set<PurchaseId>, now: DateTime, convert: Converter)
    requires Valid(b) && id in b.purchases && PurchaseConsistent(b, id)
    requires b.purchases[id].state == PENDING && id !in done && Due(b.purchases[id], now)
    requires Preserves(b, prev) && SweptThrough(b, prev, done, now)
    ensures var t := Payment(prev, b.banks[b.purchases[id].bank].username, id, now, convert);
      t.result.Success? && Preserves(b, t.books) && SweptThrough(b, t.books, done + {id}, now)
  {
    var p := b.purchases[id];
    var username := b.banks[p.bank].username;
    assert prev.purchases[id] == p;
    assert prev.banks[p.bank].username == username;
    PaymentGuard(prev, username, id, now, convert);
    PaymentSettles(prev, username, id, now, convert);
    var t := Payment(prev, username, id, now, convert);
    SettleEffect(prev, id, now, convert);
    PaymentPreserves(prev, username, id, now, convert);
    PreservesTransitive(b, prev, t.books);
    SweepStep(b, prev, t.books, done, id, now);
  }

  lemma SweepUnfold(b: Books, listed: seq<PurchaseId>, now: DateTime, convert: Converter)
    requires Valid(b) && |listed| > 0
    requires forall i :: i in listed ==> i in b.purchases
    requires forall i :: i in listed[..|listed| - 1] ==> i in b.purchases
    requires b.purchases[listed[|listed| - 1]].bank in b.banks
    ensures var prev := Sweep(b, listed[..|listed| - 1], now, convert);
      var p := b.purchases[listed[|listed| - 1]];
      Sweep(b, listed, now, convert) ==
        if prev.result.Failure? || !Due(p, now) then prev
        else Payment(prev.books, b.banks[p.bank].username, listed[|listed| - 1], now, convert)
  {
  }

  /** One more purchase of the listing: the sweep so far leaves consistent records, and the
      next purchase is paid through payDocument when nothing has failed and it is due. */
  lemma SweepNext(b: Books, listed: seq<PurchaseId>, n: nat, now: DateTime, convert: Converter)
    requires Valid(b) && n < |listed|
    requires forall id :: id in listed ==> id in b.purchases
    ensures forall id :: id in listed[..n + 1] ==> id in b.purchases
    ensures b.purchases[listed[n]].bank in b.banks
    ensures var prev := Sweep(b, listed[..n], now, convert);
      var p := b.purchases[listed[n]];
      Valid(prev.books) &&
      Sweep(b, listed[..n + 1], now, convert) ==
        if prev.result.Failure? || !Due(p, now) then prev
        else Payment(prev.books, b.banks[p.bank].username, listed[n], now, convert)
  {
    PrefixInRecords(b, listed, n);
    PrefixInRecords(b, listed, n + 1);
    assert PurchaseConsistent(b, listed[n]);
    assert listed[..n + 1][..n] == listed[..n];
    SweepUnfold(b, listed[..n + 1], now, convert);
  }

  lemma PreservesTransitive(b0: Books, b1: Books, b2: Books)
    requires Preserves(b0, b1) && Preserves(b1, b2)
    ensures Preserves(b0, b2)
  {
  }

  lemma SweepStep(b: Books, mid: Books, after: Books, done: set<PurchaseId>, id: PurchaseId, now: DateTime)
    requires SweptThrough(b, mid, done, now)
    requires id in b.purchases && id !in done && Due(b.purchases[id], now)
    requires b.purchases[id].document in b.documents
    requires var p := b.purchases[id];
      after.purchases == mid.purchases[id := p.(state := PAID, payDate := Some(now))] &&
      after.documents == mid.documents[p.document := mid.documents[p.document].(state := PAID)]
    ensures SweptThrough(b, after, done + {id}, now)
  {
    var p := b.purchases[id];
    var settled, settled' := SettledDocuments(b, done, now), SettledDocuments(b, done + {id}, now);
    SettledGrows(b, done, id, now);
    forall i | i in b.purchases
      ensures after.purchases[i] ==
        if i in done + {id} && Due(b.purchases[i], now) then b.purchases[i].(state := PAID, payDate := Some(now))
        else b.purchases[i]
    {
      if i != id {
        assert after.purchases[i] == mid.purchases[i];
      }
    }
    forall d | d in b.documents
      ensures after.documents[d] == if d in settled' then b.documents[d].(state := PAID) else b.documents[d]
    {
      if d != p.document {
        assert after.documents[d] == mid.documents[d];
        assert d in settled' <==> d in settled;
      }
    }
  }

  lemma SettledGrows(b: Books, done: set<PurchaseId>, id: PurchaseId, now: DateTime)
    requires id in b.purchases && Due(b.purchases[id], now)
    ensures SettledDocuments(b, done + {id}, now) == SettledDocuments(b, done, now) + {b.purchases[id].document}
  {
  }

  /** The purchases findAllByState(PENDING) returns. */
  function PendingIds(b: Books): set<PurchaseId>
  {
    set id | id in b.purchases && b.purchases[id].state == PENDING
  }

  /** A list enumerating the PENDING purchases names only PENDING purchases of the books. */
  lemma ListedPending(b: Books, listed: seq<PurchaseId>)
    requires Elements(listed) == PendingIds(b)
    ensures forall id :: id in listed ==> id in b.purchases && b.purchases[id].state == PENDING
  {
    forall id | id in listed
      ensures id in b.purchases && b.purchases[id].state == PENDING
    {
      assert id in Elements(listed);
    }
  }

  /** A list without repetitions. */
  predicate Distinct(s: seq<PurchaseId>)
  {
    forall i, j :: 0 <= i < j < |s| ==> s[i] != s[j]
  }

  lemma PrefixInRecords(b: Books, listed: seq<PurchaseId>, n: nat)
    requires n <= |listed|
    requires forall i :: i in listed ==> i in b.purchases
    ensures forall i :: i in listed[..n] ==> i in b.purchases
  {
    forall i | i in listed[..n]
      ensures i in b.purchases
    {
      var j :| 0 <= j < n && listed[..n][j] == i;
      assert listed[j] == i;
    }
  }

  // ---------------------------------------------------------------- exchange-rate lookups

  /** sellDocument fetches the day's exchange rate once when its guards pass and the document
      and the bank differ in currency, and not at all otherwise. */
  predicate SaleFetchesRate(b: Books, username: string, req: SaleRequest)
    requires Valid(b)
  {
    SaleParties(b, username, req).Success? &&
    b.documents[req.documentId].currency != b.banks[req.bankId].currency
  }

  /** payDocument fetches the day's exchange rate once when its guards pass and the purchase
      currency is not the company's main currency, and not at all otherwise. */
  predicate PaymentFetchesRate(b: Books, username: string, purchaseId: PurchaseId)
    requires Valid(b)
  {
    purchaseId in b.purchases &&
    assert PurchaseConsistent(b, purchaseId);
    var p := b.purchases[purchaseId];
    b.banks[p.bank].username == username && p.state == PENDING &&
    p.currency != b.companies[b.documents[p.document].company].mainCurrency
  }
}
