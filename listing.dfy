/** What getPurchasesBySpecificState lists: the purchases of one company (through their
    documents) or of one bank, optionally of one state only, in ascending order of identifier. */
module Listing {
  import opened Outcomes
  import opened Ledger

  /** Whose purchases are listed: a company, through the documents it owns, or a bank. */
  datatype Owner = OfCompany(company: CompanyId) | OfBank(bank: BankId)

  /** The entry a listing returns for one purchase (PurchasedDocumentDTO); the identifier is
      left out when the caller asks for entries without identifiers. */
  datatype PurchasedDocument = PurchasedDocument(id: Option<PurchaseId>, purchase: Purchase)

  /** The owner a username names in a role: the company or the bank of that username. */
  function OwnerOf(b: Books, username: string, role: Role): (r: Result<Owner, Error>)
    requires Valid(b)
    ensures r.Failure? <==>
      (role == COMPANY && forall c :: c in b.companies ==> b.companies[c].username != username) ||
      (role == BANK && forall k :: k in b.banks ==> b.banks[k].username != username)
    ensures r.Failure? ==> r.error == if role == COMPANY then CompanyNotFound else BankNotFound
    ensures r.Success? && role == COMPANY ==>
      r.value.OfCompany? && r.value.company in b.companies && b.companies[r.value.company].username == username
    ensures r.Success? && role == BANK ==>
      r.value.OfBank? && r.value.bank in b.banks && b.banks[r.value.bank].username == username
  {
    match role
    case COMPANY =>
      (match CompanyByUsername(b.companies, username)
       case None => Failure(CompanyNotFound)
       case Some(c) => Success(OfCompany(c)))
    case BANK =>
      (match BankByUsername(b.banks, username)
       case None => Failure(BankNotFound)
       case Some(k) => Success(OfBank(k)))
  }

  /** The repository queries findAllByDocumentCompanyId, findAllByBankId and their variants
      with a state: the purchase belongs to the owner and, when a state is given, has it. */
  predicate Owns(b: Books, owner: Owner, state: Option<State>, id: PurchaseId)
    requires id in b.purchases
  {
    var p := b.purchases[id];
    (state.None? || p.state == state.value) &&
    match owner
    case OfCompany(c) => p.document in b.documents && b.documents[p.document].company == c
    case OfBank(k) => p.bank == k
  }

  /** Every purchase the query returns. */
  function Matching(b: Books, owner: Owner, state: Option<State>): set<PurchaseId>
  {
    set id | id in b.purchases && Owns(b, owner, state, id)
  }

  predicate Increasing(s: seq<PurchaseId>)
  {
    forall i, j :: 0 <= i < j < |s| ==> s[i] < s[j]
  }

  predicate Ascending(s: seq<PurchaseId>)
  {
    forall i, j :: 0 <= i < j < |s| ==> s[i] <= s[j]
  }

  /** The identifiers of a list of entries, with none left out. */
  function IdsOf(entries: seq<PurchasedDocument>): (ids: seq<PurchaseId>)
    requires forall k :: 0 <= k < |entries| ==> entries[k].id.Some?
    ensures |ids| == |entries|
    ensures forall k :: 0 <= k < |ids| ==> ids[k] == entries[k].id.value
  {
    if |entries| == 0 then [] else IdsOf(entries[..|entries| - 1]) + [entries[|entries| - 1].id.value]
  }

  /** The order of a listing is determined: two increasing lists of the same identifiers are
      the same list. */
  lemma {:induction false} IncreasingUnique(s: seq<PurchaseId>, t: seq<PurchaseId>)
    requires Increasing(s) && Increasing(t)
    requires Elements(s) == Elements(t)
    ensures s == t
    decreases |s|
  {
    if |s| > 0 {
      assert s[0] in Elements(t);
      assert t[0] in Elements(s);
      assert |t| > 0;
      var i :| 0 <= i < |t| && t[i] == s[0];
      var j :| 0 <= j < |s| && s[j] == t[0];
      assert s[0] <= s[j] == t[0];
      assert t[0] <= t[i] == s[0];
      TailElements(s);
      TailElements(t);
      IncreasingUnique(s[1..], t[1..]);
      assert s == [s[0]] + s[1..] && t == [t[0]] + t[1..];
    } else {
      FirstIsElement(t);
    }
  }

  lemma FirstIsElement(t: seq<PurchaseId>)
    ensures |t| > 0 ==> t[0] in Elements(t)
  {
  }

  /** Dropping the first, smallest element of an increasing list drops it from its elements. */
  lemma TailElements(s: seq<PurchaseId>)
    requires Increasing(s) && |s| > 0
    ensures Increasing(s[1..])
    ensures Elements(s[1..]) == Elements(s) - {s[0]}
  {
    assert s == [s[0]] + s[1..];
    forall x | x in Elements(s[1..])
      ensures x != s[0]
    {
      var k :| 0 <= k < |s[1..]| && s[1..][k] == x;
      assert s[k + 1] == x;
    }
  }
}
