/** The records of the bookkeeping service and the request payloads that
    create and update them, with the validation each handler applies. */
module Transactions {
  import opened Text

  datatype Option<T> = None | Some(value: T)

  /** A 128-bit UUID. Only equality between ids is ever used. */
  newtype Uuid = x: int | 0 <= x < 0x1_0000_0000_0000_0000_0000_0000_0000_0000

  /** Rust's `u64`, the type of a UNIX timestamp in seconds. */
  type U64 = x: int | 0 <= x < 0x1_0000_0000_0000_0000

  /** An `f64` amount: a finite value, NaN, or an infinity of either sign.
      Finite values are exact reals (rounding is not modelled). */
  datatype Amount = Finite(value: real) | NaN | Infinite(negative: bool)

  /** `f64::is_finite`. */
  predicate IsFinite(a: Amount) {
    a.Finite?
  }

  /** `f64` addition, exact on finite values: NaN absorbs everything, two
      infinities of opposite sign give NaN, an infinity absorbs a finite value. */
  function Add(a: Amount, b: Amount): (r: Amount)
    ensures IsFinite(r) <==> IsFinite(a) && IsFinite(b)
    ensures IsFinite(a) && IsFinite(b) ==> r.value == a.value + b.value
    ensures (a.NaN? || b.NaN?) ==> r.NaN?
  {
    match (a, b)
    case (Finite(x), Finite(y)) => Finite(x + y)
    case (NaN, _) => NaN
    case (_, NaN) => NaN
    case (Infinite(n), Infinite(m)) => if n == m then a else NaN
    case (Infinite(_), Finite(_)) => a
    case (Finite(_), Infinite(_)) => b
  }

  /** A stored record (`struct Transaction`). */
  datatype Transaction = Transaction(id: Uuid, user: string, item: string, amount: Amount, timestamp: U64)

  /** The create payload (`struct CreateTransaction`); the timestamp is optional. */
  datatype CreateTransaction = CreateTransaction(user: string, item: string, amount: Amount, timestamp: Option<U64>)

  /** The update payload (`struct UpdateTransaction`): every field is optional. */
  datatype UpdateTransaction = UpdateTransaction(user: Option<string>, item: Option<string>, amount: Option<Amount>, timestamp: Option<U64>)

  /** The reasons a handler answers 400 Bad Request for a payload. */
  datatype Invalid =
    | BlankUserOrItem   // create: "user and item must be non-empty strings"
    | BlankUser         // update: "user cannot be empty"
    | BlankItem         // update: "item cannot be empty"
    | AmountNotFinite   // create and update: the amount is NaN or infinite

  /** The invariant every stored record is meant to keep: user and item are
      non-empty and already trimmed, the amount is finite. */
  predicate WellFormed(t: Transaction) {
    t.user != [] && Trim(t.user) == t.user &&
    t.item != [] && Trim(t.item) == t.item &&
    IsFinite(t.amount)
  }

  /** The checks of create, in the source's order: blank user or item first,
      then a non-finite amount. */
  function CheckCreate(p: CreateTransaction): (r: Option<Invalid>)
    ensures r == None <==> !IsBlank(p.user) && !IsBlank(p.item) && IsFinite(p.amount)
    ensures r == Some(BlankUserOrItem) <==> IsBlank(p.user) || IsBlank(p.item)
    ensures r == Some(AmountNotFinite) <==> !IsBlank(p.user) && !IsBlank(p.item) && !IsFinite(p.amount)
  {
    if IsBlank(p.user) || IsBlank(p.item) then Some(BlankUserOrItem)
    else if !IsFinite(p.amount) then Some(AmountNotFinite)
    else None
  }

  /** The record create builds: the fresh id, trimmed user and item, the
      payload's amount, and the payload's timestamp or else the current time.
      When the payload passes create's checks the record is well-formed. */
  function NewTransaction(p: CreateTransaction, id: Uuid, now: U64): (r: Transaction)
    ensures r.id == id && r.amount == p.amount
    ensures r.user == Trim(p.user) && r.item == Trim(p.item)
    ensures p.timestamp.Some? ==> r.timestamp == p.timestamp.value
    ensures p.timestamp.None? ==> r.timestamp == now
    ensures CheckCreate(p) == None ==> WellFormed(r)
  {
    TrimIdempotent(p.user);
    TrimIdempotent(p.item);
    Transaction(id, Trim(p.user), Trim(p.item), p.amount,
                if p.timestamp.Some? then p.timestamp.value else now)
  }

  /** Create on sample payloads: a blank user and a NaN amount are rejected,
      and padded names are stored trimmed. */
  lemma CreateExamples(id: Uuid, now: U64)
    ensures CheckCreate(CreateTransaction("  ", "x", Finite(1.0), None)) == Some(BlankUserOrItem)
    ensures CheckCreate(CreateTransaction("a", "b", NaN, None)) == Some(AmountNotFinite)
    ensures var p := CreateTransaction(" Alice ", " Book ", Finite(9.5), None);
            CheckCreate(p) == None &&
            NewTransaction(p, id, now) == Transaction(id, "Alice", "Book", Finite(9.5), now)
  {
    BlankIffAllWhitespace("  ");
    BlankIffAllWhitespace("a");
    BlankIffAllWhitespace("b");
    assert !IsWhitespace("a"[0]) && !IsWhitespace("b"[0]);
    TrimOfPadded(" ", "Alice", " ");
    TrimOfPadded(" ", "Book", " ");
    assert " " + "Alice" + " " == " Alice ";
    assert " " + "Book" + " " == " Book ";
  }

  /** The per-field checks of update. */
  predicate UserAccepted(p: UpdateTransaction) { p.user.None? || !IsBlank(p.user.value) }
  predicate ItemAccepted(p: UpdateTransaction) { p.item.None? || !IsBlank(p.item.value) }
  predicate AmountAccepted(p: UpdateTransaction) { p.amount.None? || IsFinite(p.amount.value) }

  /** The outcome of patching one record: the record as it is left, and the
      check that stopped the patch, if any. */
  datatype Patched = Patched(tx: Transaction, rejected: Option<Invalid>)

  /** Update applied to one record, field by field in the order user, item,
      amount, timestamp; each present field is checked and then written, and
      the first failing check stops the patch with the earlier fields already
      written. */
  function Patch(t: Transaction, p: UpdateTransaction): (r: Patched)
    ensures r.tx.id == t.id
    ensures r.rejected == None <==> UserAccepted(p) && ItemAccepted(p) && AmountAccepted(p)
    ensures r.rejected == Some(BlankUser) <==> !UserAccepted(p)
    ensures r.rejected == Some(BlankItem) <==> UserAccepted(p) && !ItemAccepted(p)
    ensures r.rejected == Some(AmountNotFinite) <==> UserAccepted(p) && ItemAccepted(p) && !AmountAccepted(p)
    ensures r.tx.user == if p.user.Some? && UserAccepted(p) then Trim(p.user.value) else t.user
    ensures r.tx.item == if p.item.Some? && UserAccepted(p) && ItemAccepted(p) then Trim(p.item.value) else t.item
    ensures r.tx.amount ==
              if p.amount.Some? && UserAccepted(p) && ItemAccepted(p) && AmountAccepted(p)
              then p.amount.value else t.amount
    ensures r.tx.timestamp == if p.timestamp.Some? && r.rejected == None then p.timestamp.value else t.timestamp
  {
    if p.user.Some? && IsBlank(p.user.value) then Patched(t, Some(BlankUser)) else
    var t1 := if p.user.Some? then t.(user := Trim(p.user.value)) else t;
    if p.item.Some? && IsBlank(p.item.value) then Patched(t1, Some(BlankItem)) else
    var t2 := if p.item.Some? then t1.(item := Trim(p.item.value)) else t1;
    if p.amount.Some? && !IsFinite(p.amount.value) then Patched(t2, Some(AmountNotFinite)) else
    var t3 := if p.amount.Some? then t2.(amount := p.amount.value) else t2;
    Patched(if p.timestamp.Some? then t3.(timestamp := p.timestamp.value) else t3, None)
  }

  /** Since every field is checked before it is written, patching keeps a
      well-formed record well-formed, even when the patch is rejected half way. */
  lemma PatchKeepsWellFormed(t: Transaction, p: UpdateTransaction)
    requires WellFormed(t)
    ensures WellFormed(Patch(t, p).tx)
  {
    var r := Patch(t, p).tx;
    if p.user.Some? && UserAccepted(p) {
      TrimIdempotent(p.user.value);
      assert r.user == Trim(p.user.value);
    } else {
      assert r.user == t.user;
    }
    if p.item.Some? && UserAccepted(p) && ItemAccepted(p) {
      TrimIdempotent(p.item.value);
      assert r.item == Trim(p.item.value);
    } else {
      assert r.item == t.item;
    }
  }

  /** An update that carries only an item changes only the item: amount,
      timestamp, user and id stay as they were. */
  lemma PatchItemOnly(t: Transaction, item: string)
    requires !IsBlank(item)
    ensures Patch(t, UpdateTransaction(None, Some(item), None, None)) ==
            Patched(t.(item := Trim(item)), None)
  {
  }
}
