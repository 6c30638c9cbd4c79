/** The shared state of the service and its six handlers. The in-memory
    collection is changed in place by create, update and delete, each of which
    then rewrites the whole mirror file; a failed write is reported, but the
    in-memory change is not rolled back. */
module Store {
  import opened Text
  import opened Transactions
  import opened Collection

  /** What a handler answers: 200/201/204 with a value, 400 for a rejected
      payload, 404, or 500 when the mirror file could not be written. */
  datatype Response<T> = Ok(value: T) | ValidationError(reason: Invalid) | NotFound | PersistError

  /** `struct AppState`: the collection, and the records that loading the
      mirror file at the storage path would yield. */
  class AppState {
    var transactions: seq<Transaction>
    var file: seq<Transaction>

    /** The collection is meant to keep distinct ids and well-formed records. */
    ghost predicate Valid()
      reads this
    {
      Consistent(transactions)
    }

    /** The state at startup: `loaded` is what loading the mirror yielded,
        which is empty when the file is missing or cannot be parsed. */
    constructor (loaded: seq<Transaction>)
      ensures transactions == loaded && file == loaded
    {
      transactions := loaded;
      file := loaded;
    }

    /** `persist`: writes a snapshot of the entire collection to a temporary
        file and renames it over the mirror. Whether the I/O succeeds is not
        determined by the model; either way the mirror holds its previous
        records or all of the current ones, never a part. */
    method Persist() returns (ok: bool)
      modifies this`file
      ensures ok ==> file == transactions
      ensures !ok ==> file == old(file)
    {
      ok := *;
      if ok {
        file := transactions;
      }
    }

    /** `create_transaction`, with `id` the fresh UUID and `now` the clock. */
    method Create(p: CreateTransaction, id: Uuid, now: U64) returns (r: Response<Transaction>)
      requires !HasId(transactions, id)
      modifies this`transactions, this`file
      ensures CheckCreate(p).Some? ==>
                r == ValidationError(CheckCreate(p).value) &&
                transactions == old(transactions) && file == old(file)
      ensures CheckCreate(p).None? ==>
                var tx := Transaction(id, Trim(p.user), Trim(p.item), p.amount,
                                      if p.timestamp.Some? then p.timestamp.value else now);
                transactions == old(transactions) + [tx] &&
                ((r == Ok(tx) && file == transactions) || (r == PersistError && file == old(file)))
      ensures old(Valid()) ==> Valid()
    {
      var invalid := CheckCreate(p);
      if invalid.Some? {
        return ValidationError(invalid.value);
      }
      var tx := NewTransaction(p, id, now);
      if Valid() {
        AppendKeepsConsistent(transactions, tx);
      }
      transactions := transactions + [tx];
      var ok := Persist();
      if !ok {
        return PersistError;
      }
      return Ok(tx);
    }

    /** `list_transactions`: a snapshot of the whole collection in insertion order. */
    function List(): (r: seq<Transaction>)
      reads this
      ensures |r| == |transactions| && forall i :: 0 <= i < |r| ==> r[i] == transactions[i]
    {
      transactions
    }

    /** `get_transaction`: the first record with the id, or 404. */
    function Get(id: Uuid): (r: Response<Transaction>)
      reads this
      ensures r.Ok? || r.NotFound?
      ensures r.NotFound? <==> !HasId(transactions, id)
      ensures r.Ok? ==> r.value.id == id &&
                        exists i :: 0 <= i < |transactions| && transactions[i] == r.value &&
                                    !HasId(transactions[..i], id)
      ensures Valid() && r.Ok? ==>
                forall j :: 0 <= j < |transactions| && transactions[j].id == id ==> transactions[j] == r.value
    {
      assert Valid() ==> forall j :: 0 <= j < |transactions| && transactions[j].id == id ==>
                           Find(transactions, id) == Some(transactions[j]) by {
        if Valid() {
          forall j | 0 <= j < |transactions| && transactions[j].id == id
            ensures Find(transactions, id) == Some(transactions[j])
          {
            FindUnique(transactions, j);
          }
        }
      }
      match Find(transactions, id)
      case Some(t) => Ok(t)
      case None => NotFound
    }

    /** `iter().find(|t| t.id == id)` over the collection, as a scan. */
    method Position(id: Uuid) returns (found: Option<nat>)
      ensures found == FirstIndex(transactions, id)
    {
      var i := 0;
      while i < |transactions| && transactions[i].id != id
        invariant 0 <= i <= |transactions|
        invariant forall k :: 0 <= k < i ==> transactions[k].id != id
      {
        i := i + 1;
      }
      if i == |transactions| {
        return None;
      }
      return Some(i);
    }

    /** The body of update on the record at position `i`: each present field
        is checked, then written in place; the first failing check returns at
        once, leaving the fields written before it changed. */
    method PatchAt(i: nat, p: UpdateTransaction) returns (rejected: Option<Invalid>)
      requires i < |transactions|
      modifies this`transactions
      ensures rejected == Patch(old(transactions)[i], p).rejected
      ensures transactions == old(transactions)[i := Patch(old(transactions)[i], p).tx]
    {
      if p.user.Some? {
        var user := Trim(p.user.value);
        if user == [] {
          return Some(BlankUser);
        }
        transactions := transactions[i := transactions[i].(user := user)];
      }
      if p.item.Some? {
        var item := Trim(p.item.value);
        if item == [] {
          return Some(BlankItem);
        }
        transactions := transactions[i := transactions[i].(item := item)];
      }
      if p.amount.Some? {
        if !IsFinite(p.amount.value) {
          return Some(AmountNotFinite);
        }
        transactions := transactions[i := transactions[i].(amount := p.amount.value)];
      }
      if p.timestamp.Some? {
        transactions := transactions[i := transactions[i].(timestamp := p.timestamp.value)];
      }
      return None;
    }

    /** `update_transaction`: patches the first record with the id in place;
        a rejected field leaves the fields written before it changed and
        nothing is persisted. On success the record is read back by id after
        the mirror is written. */
    method Update(id: Uuid, p: UpdateTransaction) returns (r: Response<Transaction>)
      modifies this`transactions, this`file
      ensures FirstIndex(old(transactions), id).None? ==>
                r == NotFound && transactions == old(transactions) && file == old(file)
      ensures FirstIndex(old(transactions), id).Some? ==>
                var i := FirstIndex(old(transactions), id).value;
                var patched := Patch(old(transactions)[i], p);
                transactions == old(transactions)[i := patched.tx] &&
                (patched.rejected.Some? ==>
                   r == ValidationError(patched.rejected.value) && file == old(file)) &&
                (patched.rejected.None? ==>
                   (r == Ok(patched.tx) && file == transactions) || (r == PersistError && file == old(file)))
      ensures old(Valid()) ==> Valid()
    {
      var found := Position(id);
      if found.None? {
        return NotFound;
      }
      var i := found.value;
      ghost var patched := Patch(transactions[i], p);
      if Valid() {
        PatchKeepsWellFormed(transactions[i], p);
        ReplaceKeepsConsistent(transactions, i, patched.tx);
      }
      var rejected := PatchAt(i, p);
      if rejected.Some? {
        return ValidationError(rejected.value);
      }
      var ok := Persist();
      if !ok {
        return PersistError;
      }
      FindAfterReplace(old(transactions), id, i, patched.tx);
      var updated := Find(transactions, id);
      return Ok(updated.value);
    }

    /** `delete_transaction`: `retain` drops every record with the id; 404 when
        the length did not change. */
    method Delete(id: Uuid) returns (r: Response<()>)
      modifies this`transactions, this`file
      ensures transactions == Without(old(transactions), id)
      ensures r == NotFound <==> !HasId(old(transactions), id)
      ensures r == NotFound ==> file == old(file)
      ensures r != NotFound ==> (r == Ok(()) && file == transactions) || (r == PersistError && file == old(file))
      ensures old(Valid()) && r != NotFound ==> |transactions| == |old(transactions)| - 1
      ensures old(Valid()) ==> Valid()
    {
      var all := transactions;
      var initialLen := |all|;
      var kept: seq<Transaction> := [];
      var i := 0;
      while i < |all|
        invariant 0 <= i <= |all|
        invariant kept == Without(all[..i], id)
      {
        assert all[..i + 1][..i] == all[..i];
        if all[i].id != id {
          kept := kept + [all[i]];
        }
        i := i + 1;
      }
      assert all[..i] == all;
      WithoutLength(all, id);
      if Valid() {
        WithoutKeepsConsistent(all, id);
        if HasId(all, id) {
          WithoutUniqueLength(all, id);
        }
      }
      transactions := kept;
      if |transactions| == initialLen {
        return NotFound;
      }
      var ok := Persist();
      if !ok {
        return PersistError;
      }
      return Ok(());
    }

    /** `user_summary`: the records whose user equals `user` exactly, in
        order, their count and, on a valid collection, the exact sum of their
        amounts. */
    function UserSummary(user: string): (r: Summary)
      reads this
      ensures r.user == user && r.count == |r.transactions|
      ensures forall t :: t in r.transactions <==> t in transactions && t.user == user
      ensures Valid() ==> r.totalAmount == Finite(MatchingSum(transactions, user))
    {
      assert Valid() ==> AllFinite(transactions) && Summarize(transactions, user).totalAmount ==
                           Finite(MatchingSum(transactions, user)) by {
        if Valid() {
          assert AllFinite(transactions);
          SummaryTotal(transactions, user);
        }
      }
      Summarize(transactions, user)
    }
  }
}
