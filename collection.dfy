/** The operations the handlers perform on the ordered collection of records,
    as functions on sequences, and the invariant the collection is meant to
    keep: distinct ids and well-formed records. */
module Collection {
  import opened Text
  import opened Transactions

  predicate HasId(txs: seq<Transaction>, id: Uuid) {
    exists i :: 0 <= i < |txs| && txs[i].id == id
  }

  predicate UniqueIds(txs: seq<Transaction>) {
    forall i, j :: 0 <= i < j < |txs| ==> txs[i].id != txs[j].id
  }

  predicate AllFinite(txs: seq<Transaction>) {
    forall i :: 0 <= i < |txs| ==> IsFinite(txs[i].amount)
  }

  /** The invariant of the collection: ids pairwise distinct, every record
      well-formed. */
  predicate Consistent(txs: seq<Transaction>) {
    UniqueIds(txs) && forall i :: 0 <= i < |txs| ==> WellFormed(txs[i])
  }

  /** The position `iter().find(|t| t.id == id)` stops at: the first record
      with that id, or none when no record has it. */
  function FirstIndex(txs: seq<Transaction>, id: Uuid): (r: Option<nat>)
    ensures r.Some? ==> r.value < |txs| && txs[r.value].id == id &&
                        forall k :: 0 <= k < r.value ==> txs[k].id != id
    ensures r.None? <==> !HasId(txs, id)
  {
    if txs == [] then None
    else if txs[0].id == id then Some(0)
    else match FirstIndex(txs[1..], id)
      case None =>
        assert forall k :: 1 <= k < |txs| ==> txs[k] == txs[1..][k - 1];
        None
      case Some(k) => Some(k + 1)
  }

  /** `iter().find(|t| t.id == id)`: the first record carrying the id. */
  function Find(txs: seq<Transaction>, id: Uuid): (r: Option<Transaction>)
    ensures r.None? <==> !HasId(txs, id)
    ensures r.Some? ==> r.value.id == id &&
                        exists i :: 0 <= i < |txs| && txs[i] == r.value && !HasId(txs[..i], id)
  {
    match FirstIndex(txs, id)
    case None => None
    case Some(i) => Some(txs[i])
  }

  /** With distinct ids, looking up a record's id finds exactly that record. */
  lemma FindUnique(txs: seq<Transaction>, i: nat)
    requires UniqueIds(txs) && i < |txs|
    ensures Find(txs, txs[i].id) == Some(txs[i])
  {
    var k := FirstIndex(txs, txs[i].id).value;
    assert !(k < i) && !(i < k);
  }

  /** Writing a record with the same id at the first position carrying that id
      makes a later lookup return the written record. */
  lemma FindAfterReplace(txs: seq<Transaction>, id: Uuid, i: nat, t: Transaction)
    requires FirstIndex(txs, id) == Some(i) && t.id == id
    ensures Find(txs[i := t], id) == Some(t)
  {
    var s := txs[i := t];
    assert s[i].id == id;
    assert HasId(s, id);
    assert forall k :: 0 <= k < i ==> s[k].id != id;
    var j := FirstIndex(s, id).value;
    assert j == i;
  }

  /** `retain(|t| t.id != id)`: the records whose id differs, in their order. */
  function Without(txs: seq<Transaction>, id: Uuid): (r: seq<Transaction>)
    ensures |r| <= |txs|
    ensures forall t :: t in r <==> t in txs && t.id != id
  {
    if txs == [] then []
    else
      var init, last := txs[..|txs| - 1], txs[|txs| - 1];
      assert txs == init + [last];
      Without(init, id) + (if last.id != id then [last] else [])
  }

  /** Retaining distributes over concatenation: the kept records stay in their
      original relative order. */
  lemma {:induction false} WithoutAppend(a: seq<Transaction>, b: seq<Transaction>, id: Uuid)
    ensures Without(a + b, id) == Without(a, id) + Without(b, id)
  {
    if b == [] {
      assert a + b == a;
    } else {
      var init, last := b[..|b| - 1], b[|b| - 1];
      assert (a + b)[..|a + b| - 1] == a + init;
      WithoutAppend(a, init, id);
    }
  }

  /** The length is unchanged exactly when no record had the id, which is how
      delete detects absence. */
  lemma {:induction false} WithoutLength(txs: seq<Transaction>, id: Uuid)
    ensures |Without(txs, id)| == |txs| <==> !HasId(txs, id)
  {
    if txs != [] {
      var init, last := txs[..|txs| - 1], txs[|txs| - 1];
      WithoutLength(init, id);
      if HasId(txs, id) && last.id != id {
        var i :| 0 <= i < |txs| && txs[i].id == id;
        assert init[i].id == id;
      }
      if HasId(init, id) {
        var i :| 0 <= i < |init| && init[i].id == id;
        assert txs[i].id == id;
      }
    }
  }

  /** With no record carrying the id, retaining keeps everything. */
  lemma {:induction false} WithoutAbsent(txs: seq<Transaction>, id: Uuid)
    requires !HasId(txs, id)
    ensures Without(txs, id) == txs
  {
    if txs != [] {
      var init, last := txs[..|txs| - 1], txs[|txs| - 1];
      assert forall k :: 0 <= k < |init| ==> init[k] == txs[k];
      WithoutAbsent(init, id);
      assert txs == init + [last];
    }
  }

  /** A second removal of the same id finds nothing and changes nothing. */
  lemma WithoutIdempotent(txs: seq<Transaction>, id: Uuid)
    ensures !HasId(Without(txs, id), id)
    ensures Without(Without(txs, id), id) == Without(txs, id)
  {
    var w := Without(txs, id);
    assert forall k :: 0 <= k < |w| ==> w[k] in w;
    WithoutAbsent(w, id);
  }

  /** Appending a record whose id is new keeps the ids distinct. */
  lemma UniqueAppend(txs: seq<Transaction>, t: Transaction)
    requires UniqueIds(txs)
    requires forall u :: u in txs ==> u.id != t.id
    ensures UniqueIds(txs + [t])
  {
    var s := txs + [t];
    forall i, j | 0 <= i < j < |s| ensures s[i].id != s[j].id {
      if j == |txs| { assert s[i] in txs; }
    }
  }

  /** Retaining keeps distinct ids distinct. */
  lemma {:induction false} WithoutKeepsUnique(txs: seq<Transaction>, id: Uuid)
    requires UniqueIds(txs)
    ensures UniqueIds(Without(txs, id))
  {
    if txs != [] {
      var init, last := txs[..|txs| - 1], txs[|txs| - 1];
      WithoutKeepsUnique(init, id);
      if last.id != id {
        forall u | u in Without(init, id) ensures u.id != last.id {
          var k :| 0 <= k < |init| && init[k] == u;
          assert txs[k] == u;
        }
        UniqueAppend(Without(init, id), last);
      }
    }
  }

  /** With distinct ids, deleting a present id removes exactly one record. */
  lemma {:induction false} WithoutUniqueLength(txs: seq<Transaction>, id: Uuid)
    requires UniqueIds(txs) && HasId(txs, id)
    ensures |Without(txs, id)| == |txs| - 1
  {
    var init, last := txs[..|txs| - 1], txs[|txs| - 1];
    if last.id == id {
      assert !HasId(init, id) by {
        forall k | 0 <= k < |init| ensures init[k].id != id {
          assert txs[k] == init[k];
        }
      }
      WithoutAbsent(init, id);
    } else {
      var i :| 0 <= i < |txs| && txs[i].id == id;
      assert init[i].id == id;
      WithoutUniqueLength(init, id);
    }
  }

  /** Deletion keeps the collection's invariant. */
  lemma WithoutKeepsConsistent(txs: seq<Transaction>, id: Uuid)
    requires Consistent(txs)
    ensures Consistent(Without(txs, id))
  {
    WithoutKeepsUnique(txs, id);
    var w := Without(txs, id);
    forall i | 0 <= i < |w| ensures WellFormed(w[i]) {
      assert w[i] in w;
      var k :| 0 <= k < |txs| && txs[k] == w[i];
    }
  }

  /** Create keeps the collection's invariant when the new record is
      well-formed and its id is fresh. */
  lemma AppendKeepsConsistent(txs: seq<Transaction>, t: Transaction)
    requires Consistent(txs) && WellFormed(t) && !HasId(txs, t.id)
    ensures Consistent(txs + [t])
  {
    forall u | u in txs ensures u.id != t.id {
      var k :| 0 <= k < |txs| && txs[k] == u;
    }
    UniqueAppend(txs, t);
  }

  /** Update keeps the collection's invariant: the record keeps its id and its
      position and stays well-formed. */
  lemma ReplaceKeepsConsistent(txs: seq<Transaction>, i: nat, t: Transaction)
    requires Consistent(txs) && i < |txs| && t.id == txs[i].id && WellFormed(t)
    ensures Consistent(txs[i := t])
  {
  }

  /** `filter(|t| t.user == user)`: the records of one user, in their order. */
  function UserRecords(txs: seq<Transaction>, user: string): (r: seq<Transaction>)
    ensures |r| <= |txs|
    ensures forall t :: t in r <==> t in txs && t.user == user
  {
    if txs == [] then []
    else
      var init, last := txs[..|txs| - 1], txs[|txs| - 1];
      assert txs == init + [last];
      UserRecords(init, user) + (if last.user == user then [last] else [])
  }

  /** Filtering by user distributes over concatenation, so it keeps the
      records' relative order. */
  lemma {:induction false} UserRecordsAppend(a: seq<Transaction>, b: seq<Transaction>, user: string)
    ensures UserRecords(a + b, user) == UserRecords(a, user) + UserRecords(b, user)
  {
    if b == [] {
      assert a + b == a;
    } else {
      var init, last := b[..|b| - 1], b[|b| - 1];
      assert (a + b)[..|a + b| - 1] == a + init;
      UserRecordsAppend(a, init, user);
    }
  }

  /** `map(|t| t.amount).sum()`: the left-to-right `f64` sum of the amounts,
      starting from zero; it is finite exactly when every amount is. */
  function Total(txs: seq<Transaction>): (r: Amount)
    ensures IsFinite(r) <==> AllFinite(txs)
  {
    if txs == [] then Finite(0.0)
    else
      var init := txs[..|txs| - 1];
      assert forall k :: 0 <= k < |init| ==> init[k] == txs[k];
      Add(Total(init), txs[|txs| - 1].amount)
  }

  lemma TotalAppendOne(txs: seq<Transaction>, t: Transaction)
    ensures Total(txs + [t]) == Add(Total(txs), t.amount)
  {
    assert (txs + [t])[..|txs|] == txs;
  }

  /** Reference for a user's total: the exact sum, over the whole collection,
      of the amounts of the records whose user matches. */
  function MatchingSum(txs: seq<Transaction>, user: string): real
    requires AllFinite(txs)
  {
    if txs == [] then 0.0
    else
      var init, last := txs[..|txs| - 1], txs[|txs| - 1];
      assert forall k :: 0 <= k < |init| ==> init[k] == txs[k];
      MatchingSum(init, user) + (if last.user == user then last.amount.value else 0.0)
  }

  /** The result of `user_summary`. */
  datatype Summary = Summary(user: string, count: nat, totalAmount: Amount, transactions: seq<Transaction>)

  /** `user_summary`: the records whose user equals `user` exactly (no
      trimming), their number and the sum of their amounts. */
  function Summarize(txs: seq<Transaction>, user: string): (r: Summary)
    ensures r.user == user && r.count == |r.transactions|
    ensures forall t :: t in r.transactions <==> t in txs && t.user == user
    ensures IsFinite(r.totalAmount) <==> AllFinite(r.transactions)
    ensures (forall t :: t in txs ==> t.user != user) ==>
              r.transactions == [] && r.count == 0 && r.totalAmount == Finite(0.0)
  {
    var recs := UserRecords(txs, user);
    assert recs != [] ==> recs[0] in recs;
    Summary(user, |recs|, Total(recs), recs)
  }

  /** On a collection of finite amounts, the summary's total is the exact sum
      of the matching records' amounts. */
  lemma SummaryTotal(txs: seq<Transaction>, user: string)
    requires AllFinite(txs)
    ensures Summarize(txs, user).totalAmount == Finite(MatchingSum(txs, user))
  {
    UserTotal(txs, user);
  }

  lemma {:induction false} UserTotal(txs: seq<Transaction>, user: string)
    requires AllFinite(txs)
    ensures Total(UserRecords(txs, user)) == Finite(MatchingSum(txs, user))
  {
    if txs != [] {
      var init, last := txs[..|txs| - 1], txs[|txs| - 1];
      assert forall k :: 0 <= k < |init| ==> init[k] == txs[k];
      UserTotal(init, user);
      var recs := UserRecords(init, user);
      assert IsFinite(last.amount);
      if last.user == user {
        assert UserRecords(txs, user) == recs + [last];
        TotalAppendOne(recs, last);
        assert MatchingSum(txs, user) == MatchingSum(init, user) + last.amount.value;
      } else {
        assert UserRecords(txs, user) == recs + [];
        assert recs + [] == recs;
        assert MatchingSum(txs, user) == MatchingSum(init, user);
      }
    }
  }
}
