/** Migration 029: one synthetic opening row per connected account, so that its transactions
    add up to the balance the provider reports. Amounts are in cents, dates are day numbers. */
module OpeningBalance {
  import opened Wrappers

  type Id = nat

  const OPENING := "opening_balance"
  const LABEL := "Saldo inicial"
  /** 0001-01-01, the first day Python's `date` can hold. */
  const FIRST_DAY := 1

  datatype Account = Account(id: Id, user: Id, connection: Option<Id>, balance: int, currency: string, kind: string)

  datatype Transaction = Transaction(
    user: Id, account: Id, description: string, amount: int, currency: string, primary: Option<int>,
    date: int, effective: int, kind: string, source: string, status: string)

  type Accounts = seq<Account>
  type Transactions = seq<Transaction>

  ghost predicate DistinctIds(accounts: Accounts) {
    forall i, j :: 0 <= i < j < |accounts| ==> accounts[i].id != accounts[j].id
  }

  // ---------- What a row counts for ----------

  /** The amount in the account's currency where it is known, credits positive. */
  function Signed(t: Transaction, currency: string): int {
    var amount := if t.currency == currency || t.primary.None? then t.amount else t.primary.value;
    if t.kind == "credit" then amount else -amount
  }

  /** The sum of an account's rows; `skipOpening` leaves out the synthetic ones. */
  function Sum(txs: Transactions, account: Account, skipOpening: bool): int {
    if txs == [] then 0
    else
      var last := txs[|txs| - 1];
      Sum(txs[..|txs| - 1], account, skipOpening)
      + if last.account != account.id || (skipOpening && last.source == OPENING) then 0
        else Signed(last, account.currency)
  }

  /** The earliest date of an account's rows that are not synthetic. */
  function Oldest(txs: Transactions, account: Id): Option<int> {
    if txs == [] then None
    else
      var earlier, last := Oldest(txs[..|txs| - 1], account), txs[|txs| - 1];
      if last.account != account || last.source == OPENING then earlier
      else if earlier.Some? && earlier.value <= last.date then earlier
      else Some(last.date)
  }

  function Target(a: Account): int {
    if a.kind == "credit_card" then -a.balance else a.balance
  }

  predicate HasOpening(txs: Transactions, account: Id) {
    exists i :: 0 <= i < |txs| && txs[i].account == account && txs[i].source == OPENING
  }

  /** The accounts the first query returns. */
  predicate IsSelected(a: Account, txs: Transactions) {
    a.connection.Some? && !HasOpening(txs, a.id)
  }

  function Selected(accounts: Accounts, txs: Transactions): Accounts {
    if accounts == [] then []
    else (if IsSelected(accounts[0], txs) then [accounts[0]] else []) + Selected(accounts[1..], txs)
  }

  /** What the loop does for one account. */
  datatype Outcome = Skip | Insert(row: Transaction) | Raise

  function Backfill(a: Account, txs: Transactions): Outcome {
    var offset := Target(a) - Sum(txs, a, true);
    if offset == 0 then Skip
    else
      match Oldest(txs, a.id)
      case None => Skip
      case Some(oldest) =>
        if oldest <= FIRST_DAY then Raise
        else Insert(Transaction(
          a.user, a.id, LABEL, if offset > 0 then offset else -offset, a.currency, None,
          oldest - 1, oldest - 1, if offset > 0 then "credit" else "debit", OPENING, "posted"))
  }

  /** No account of the list makes the loop raise. */
  ghost predicate NoneRaises(selected: Accounts, txs: Transactions) {
    forall i :: 0 <= i < |selected| ==> !Backfill(selected[i], txs).Raise?
  }

  function OwnRows(a: Account, txs: Transactions): Transactions {
    match Backfill(a, txs)
    case Insert(row) => [row]
    case _ => []
  }

  function NewRows(accounts: Accounts, txs: Transactions): Transactions {
    if accounts == [] then []
    else NewRows(accounts[..|accounts| - 1], txs) + OwnRows(accounts[|accounts| - 1], txs)
  }

  predicate IsSynthetic(t: Transaction, accounts: Accounts) {
    t.source == OPENING && t.description == LABEL
    && exists i :: 0 <= i < |accounts| && accounts[i].id == t.account && accounts[i].connection.Some?
  }

  /** What is left when every row with the signature the migration writes is deleted. */
  function DeleteSynthetic(txs: Transactions, accounts: Accounts): Transactions {
    if txs == [] then []
    else
      var last := txs[|txs| - 1];
      DeleteSynthetic(txs[..|txs| - 1], accounts) + if IsSynthetic(last, accounts) then [] else [last]
  }

  class BankLedger {
    var accounts: Accounts
    var transactions: Transactions

    /** The loop: each account's sum is queried when its turn comes. A date before the first
        representable day raises. */
    method InsertRows(selected: Accounts) returns (ok: bool)
      requires DistinctIds(selected)
      modifies this`transactions
      ensures ok <==> NoneRaises(selected, old(transactions))
      ensures ok ==> transactions == old(transactions) + NewRows(selected, old(transactions))
    {
      ghost var before := transactions;
      assert selected[..0] == [];
      for k := 0 to |selected|
        invariant transactions == before + NewRows(selected[..k], before)
        invariant forall i :: 0 <= i < k ==> !Backfill(selected[i], before).Raise?
      {
        OthersDoNotCount(before, selected, k);
        NextRow(before, selected, k);
        match Backfill(selected[k], transactions)
        case Skip =>
        case Insert(row) => transactions := transactions + [row];
        case Raise => return false;
      }
      assert selected[..|selected|] == selected;
      ok := true;
    }

    /** The accounts are queried once; a raise rolls everything back. */
    method Upgrade() returns (ok: bool)
      requires DistinctIds(accounts)
      modifies this`transactions
      ensures var selected := Selected(accounts, old(transactions));
              && (ok <==> NoneRaises(selected, old(transactions)))
              && transactions == old(transactions) + if ok then NewRows(selected, old(transactions)) else []
    {
      var before := transactions;
      var selected := Selected(accounts, transactions);
      SelectedDistinct(accounts, transactions);
      ok := InsertRows(selected);
      if !ok {
        transactions := before;
      }
    }

    method Downgrade()
      modifies this`transactions
      ensures transactions == DeleteSynthetic(old(transactions), accounts)
    {
      transactions := DeleteSynthetic(transactions, accounts);
    }
  }

  // ---------- Rows of other accounts do not matter ----------

  lemma {:induction false} SelectedDistinct(accounts: Accounts, txs: Transactions)
    requires DistinctIds(accounts)
    ensures DistinctIds(Selected(accounts, txs))
    ensures forall a :: a in Selected(accounts, txs) <==> a in accounts && IsSelected(a, txs)
  {
    if accounts != [] {
      var rest := accounts[1..];
      assert forall i :: 0 <= i < |rest| ==> rest[i] == accounts[i + 1];
      SelectedDistinct(rest, txs);
      forall i | 0 <= i < |Selected(rest, txs)| ensures Selected(rest, txs)[i].id != accounts[0].id {
        assert Selected(rest, txs)[i] in rest;
      }
    }
  }

  lemma {:induction false} SumAppend(txs: Transactions, more: Transactions, a: Account, skip: bool)
    ensures Sum(txs + more, a, skip) == Sum(txs, a, skip) + Sum(more, a, skip)
  {
    if more == [] {
      assert txs + more == txs;
    } else {
      assert (txs + more)[..|txs + more| - 1] == txs + more[..|more| - 1];
      SumAppend(txs, more[..|more| - 1], a, skip);
    }
  }

  lemma {:induction false} ForeignRows(txs: Transactions, more: Transactions, a: Account)
    requires forall i :: 0 <= i < |more| ==> more[i].account != a.id
    ensures Sum(txs + more, a, true) == Sum(txs, a, true)
    ensures Oldest(txs + more, a.id) == Oldest(txs, a.id)
  {
    if more == [] {
      assert txs + more == txs;
    } else {
      assert (txs + more)[..|txs + more| - 1] == txs + more[..|more| - 1];
      ForeignRows(txs, more[..|more| - 1], a);
    }
  }

  /** Every new row is an opening row of one of the accounts, which are connected. */
  lemma {:induction false} NewRowOwner(accounts: Accounts, txs: Transactions, r: int) returns (i: int)
    requires 0 <= r < |NewRows(accounts, txs)|
    ensures 0 <= i < |accounts| && Backfill(accounts[i], txs) == Insert(NewRows(accounts, txs)[r])
  {
    var last := |accounts| - 1;
    if r < |NewRows(accounts[..last], txs)| {
      i := NewRowOwner(accounts[..last], txs, r);
    } else {
      i := last;
    }
  }

  lemma NextRow(txs: Transactions, selected: Accounts, k: nat)
    requires k < |selected|
    ensures NewRows(selected[..k + 1], txs) == NewRows(selected[..k], txs) + OwnRows(selected[k], txs)
  {
    assert selected[..k + 1][..k] == selected[..k];
  }

  lemma OthersDoNotCount(txs: Transactions, selected: Accounts, k: nat)
    requires DistinctIds(selected) && k < |selected|
    ensures Backfill(selected[k], txs + NewRows(selected[..k], txs)) == Backfill(selected[k], txs)
  {
    var rows := NewRows(selected[..k], txs);
    forall r | 0 <= r < |rows| ensures rows[r].account != selected[k].id {
      var i := NewRowOwner(selected[..k], txs, r);
    }
    ForeignRows(txs, rows, selected[k]);
  }

  // ---------- What the migration achieves ----------

  ghost function After(accounts: Accounts, txs: Transactions): Transactions {
    txs + NewRows(Selected(accounts, txs), txs)
  }

  lemma RowsAreForeign(selected: Accounts, txs: Transactions, a: Account)
    requires forall i :: 0 <= i < |selected| ==> selected[i].id != a.id
    ensures forall r :: 0 <= r < |NewRows(selected, txs)| ==> NewRows(selected, txs)[r].account != a.id
  {
    forall r | 0 <= r < |NewRows(selected, txs)| ensures NewRows(selected, txs)[r].account != a.id {
      var i := NewRowOwner(selected, txs, r);
    }
  }

  lemma NewRowsSum(selected: Accounts, txs: Transactions, a: Account)
    requires selected != []
    ensures Sum(NewRows(selected, txs), a, false)
         == Sum(NewRows(selected[..|selected| - 1], txs), a, false)
          + Sum(OwnRows(selected[|selected| - 1], txs), a, false)
  {
    SumAppend(NewRows(selected[..|selected| - 1], txs), OwnRows(selected[|selected| - 1], txs), a, false);
  }

  lemma ForeignOwnRows(b: Account, txs: Transactions, a: Account)
    requires b.id != a.id
    ensures Sum(OwnRows(b, txs), a, false) == 0
  {
    SumOfForeign(OwnRows(b, txs), a);
  }

  lemma EarlierRowsAreForeign(selected: Accounts, txs: Transactions)
    requires DistinctIds(selected) && selected != []
    ensures Sum(NewRows(selected[..|selected| - 1], txs), selected[|selected| - 1], false) == 0
  {
    var before, a := selected[..|selected| - 1], selected[|selected| - 1];
    RowsAreForeign(before, txs, a);
    SumOfForeign(NewRows(before, txs), a);
  }

  /** Of all new rows, an account only counts its own. */
  lemma {:induction false} OnlyOwnRowsCount(selected: Accounts, txs: Transactions, k: nat)
    requires DistinctIds(selected) && k < |selected|
    ensures Sum(NewRows(selected, txs), selected[k], false) == Sum(OwnRows(selected[k], txs), selected[k], false)
    decreases |selected|
  {
    var last := |selected| - 1;
    NewRowsSum(selected, txs, selected[k]);
    if k == last {
      EarlierRowsAreForeign(selected, txs);
    } else {
      var before := selected[..last];
      assert before[k] == selected[k];
      OnlyOwnRowsCount(before, txs, k);
      ForeignOwnRows(selected[last], txs, selected[k]);
    }
  }

  lemma {:induction false} OwnRowIsInserted(selected: Accounts, txs: Transactions, k: nat) returns (r: int)
    requires k < |selected| && Backfill(selected[k], txs).Insert?
    ensures 0 <= r < |NewRows(selected, txs)| && NewRows(selected, txs)[r].account == selected[k].id
    decreases |selected|
  {
    var last := |selected| - 1;
    if k == last {
      r := |NewRows(selected[..last], txs)|;
    } else {
      r := OwnRowIsInserted(selected[..last], txs, k);
    }
  }

  lemma {:induction false} SumOfForeign(rows: Transactions, a: Account)
    requires forall r :: 0 <= r < |rows| ==> rows[r].account != a.id
    ensures Sum(rows, a, false) == 0
  {
    if rows != [] {
      SumOfForeign(rows[..|rows| - 1], a);
    }
  }

  lemma {:induction false} WithoutOpening(txs: Transactions, a: Account)
    requires !HasOpening(txs, a.id)
    ensures Sum(txs, a, true) == Sum(txs, a, false)
  {
    if txs != [] {
      var before := txs[..|txs| - 1];
      assert forall i :: 0 <= i < |before| ==> before[i] == txs[i];
      WithoutOpening(before, a);
    }
  }

  /** Every selected account that has transactions now adds up to its target, to the cent:
      its balance, or for a credit card the balance negated. */
  lemma SelectedAccountsAddUp(accounts: Accounts, txs: Transactions, a: Account)
    requires DistinctIds(accounts) && a in accounts && IsSelected(a, txs)
    requires Oldest(txs, a.id).Some? && !Backfill(a, txs).Raise?
    ensures a.kind == "credit_card" ==> Sum(After(accounts, txs), a, false) == -a.balance
    ensures a.kind != "credit_card" ==> Sum(After(accounts, txs), a, false) == a.balance
  {
    var selected := Selected(accounts, txs);
    SelectedDistinct(accounts, txs);
    var k :| 0 <= k < |selected| && selected[k] == a;
    OnlyOwnRowsCount(selected, txs, k);
    SumAppend(txs, NewRows(selected, txs), a, false);
    WithoutOpening(txs, a);
    OwnRowsClosesGap(a, txs);
  }

  lemma OwnRowsClosesGap(a: Account, txs: Transactions)
    requires Oldest(txs, a.id).Some? && !Backfill(a, txs).Raise?
    ensures Sum(OwnRows(a, txs), a, false) == Target(a) - Sum(txs, a, true)
  {
    var rows := OwnRows(a, txs);
    assert rows != [] ==> rows[..0] == [];
  }

  lemma {:induction false} OldestIsEarliest(txs: Transactions, account: Id, i: int)
    requires 0 <= i < |txs| && txs[i].account == account && txs[i].source != OPENING
    ensures Oldest(txs, account).Some? && Oldest(txs, account).value <= txs[i].date
  {
    if i < |txs| - 1 {
      OldestIsEarliest(txs[..|txs| - 1], account, i);
    }
  }

  /** A new row is dated the day before every transaction its account had. */
  lemma OpeningRowComesFirst(accounts: Accounts, txs: Transactions, r: int, i: int)
    requires DistinctIds(accounts)
    requires 0 <= r < |NewRows(Selected(accounts, txs), txs)|
    requires 0 <= i < |txs| && txs[i].account == NewRows(Selected(accounts, txs), txs)[r].account
    ensures NewRows(Selected(accounts, txs), txs)[r].date < txs[i].date
  {
    var selected := Selected(accounts, txs);
    SelectedDistinct(accounts, txs);
    var k := NewRowOwner(selected, txs, r);
    assert selected[k] in selected;
    assert !HasOpening(txs, selected[k].id);
    OldestIsEarliest(txs, selected[k].id, i);
  }

  /** Accounts that were not selected, or have no transactions yet, get no row. */
  lemma OtherAccountsUnchanged(accounts: Accounts, txs: Transactions, a: Account, r: int)
    requires DistinctIds(accounts) && a in accounts
    requires !IsSelected(a, txs) || Oldest(txs, a.id).None?
    requires 0 <= r < |NewRows(Selected(accounts, txs), txs)|
    ensures NewRows(Selected(accounts, txs), txs)[r].account != a.id
  {
    var selected := Selected(accounts, txs);
    SelectedDistinct(accounts, txs);
    var k := NewRowOwner(selected, txs, r);
    assert selected[k] in selected;
    SameAccount(accounts, selected[k], a);
  }

  lemma SameAccount(accounts: Accounts, a: Account, b: Account)
    requires DistinctIds(accounts) && a in accounts && b in accounts
    ensures a.id == b.id ==> a == b
  {
    var i :| 0 <= i < |accounts| && accounts[i] == a;
    var j :| 0 <= j < |accounts| && accounts[j] == b;
  }

  lemma {:induction false} NothingToInsert(selected: Accounts, txs: Transactions)
    requires forall i :: 0 <= i < |selected| ==> !Backfill(selected[i], txs).Insert?
    ensures NewRows(selected, txs) == []
  {
    if selected != [] {
      NothingToInsert(selected[..|selected| - 1], txs);
    }
  }

  /** Running the migration again inserts nothing. */
  lemma SecondRunInsertsNothing(accounts: Accounts, txs: Transactions)
    requires DistinctIds(accounts)
    ensures After(accounts, After(accounts, txs)) == After(accounts, txs)
  {
    var selected, after := Selected(accounts, txs), After(accounts, txs);
    var again := Selected(accounts, after);
    SelectedDistinct(accounts, txs);
    SelectedDistinct(accounts, after);
    forall i | 0 <= i < |again| ensures !Backfill(again[i], after).Insert? {
      assert again[i] in again;
      StillSelectedStillSkipped(accounts, txs, again[i]);
    }
    NothingToInsert(again, after);
  }

  lemma StillSelectedStillSkipped(accounts: Accounts, txs: Transactions, a: Account)
    requires DistinctIds(accounts) && a in accounts && IsSelected(a, After(accounts, txs))
    ensures !Backfill(a, After(accounts, txs)).Insert?
  {
    var selected := Selected(accounts, txs);
    var rows := NewRows(selected, txs);
    var after := After(accounts, txs);
    SelectedDistinct(accounts, txs);
    assert forall i :: 0 <= i < |txs| ==> after[i] == txs[i];
    assert a in selected;
    forall r | 0 <= r < |rows| ensures rows[r].account != a.id {
      var k := NewRowOwner(selected, txs, r);
      assert after[|txs| + r] == rows[r];
    }
    ForeignRows(txs, rows, a);
    var k :| 0 <= k < |selected| && selected[k] == a;
    if Backfill(a, txs).Insert? {
      var r := OwnRowIsInserted(selected, txs, k);
    }
  }

  // ---------- In terms of the columns alone ----------

  /** What one more row adds to an account's sum: nothing if it belongs to another account, or is an
      opening row where those are left out; otherwise its amount, added for a credit and taken off
      for anything else. An amount in another currency is replaced by the primary amount where that
      is known. */
  lemma WhatARowAdds(txs: Transactions, t: Transaction, a: Account, skipOpening: bool)
    ensures var added := Sum(txs + [t], a, skipOpening) - Sum(txs, a, skipOpening);
            && (t.account != a.id ==> added == 0)
            && (t.account == a.id && t.source == "opening_balance" && skipOpening ==> added == 0)
            && (t.account == a.id && (t.source != "opening_balance" || !skipOpening) ==>
                  && (t.kind == "credit" && t.currency == a.currency ==> added == t.amount)
                  && (t.kind != "credit" && t.currency == a.currency ==> added == -t.amount)
                  && (t.currency != a.currency ==>
                        match t.primary
                        case None => added == if t.kind == "credit" then t.amount else -t.amount
                        case Some(p) => added == if t.kind == "credit" then p else -p))
    ensures Sum([], a, skipOpening) == 0
  {
    assert (txs + [t])[..|txs|] == txs;
  }

  /** The account is connected to a bank and has no opening row yet. */
  ghost predicate Unopened(a: Account, txs: Transactions) {
    && a.connection.Some?
    && forall i :: 0 <= i < |txs| ==> txs[i].account != a.id || txs[i].source != "opening_balance"
  }

  /** The balance the account's transactions should add up to. */
  ghost function Reported(a: Account): int {
    if a.kind == "credit_card" then -a.balance else a.balance
  }

  ghost predicate HasTransactions(a: Account, txs: Transactions) {
    exists i :: 0 <= i < |txs| && txs[i].account == a.id
  }

  lemma {:induction false} OldestIsReached(txs: Transactions, account: Id)
    requires Oldest(txs, account).Some?
    ensures exists i :: 0 <= i < |txs| && txs[i].account == account && txs[i].source != "opening_balance"
              && txs[i].date == Oldest(txs, account).value
  {
    var before, last := txs[..|txs| - 1], txs[|txs| - 1];
    if Oldest(before, account) == Oldest(txs, account) {
      OldestIsReached(before, account);
      var i :| 0 <= i < |before| && before[i].account == account && before[i].source != "opening_balance"
        && before[i].date == Oldest(txs, account).value;
      assert txs[i] == before[i];
    }
  }

  /** The row for one account: dated the day before the earliest of its transactions, posted, in its
      own currency, and a credit or debit of exactly what is missing. */
  ghost predicate IsOpeningRow(row: Transaction, a: Account, txs: Transactions) {
    && row.user == a.user && row.account == a.id && row.currency == a.currency && row.primary == None
    && row.description == "Saldo inicial" && row.source == "opening_balance" && row.status == "posted"
    && row.date == row.effective
    && (exists i :: 0 <= i < |txs| && txs[i].account == a.id && txs[i].date == row.date + 1)
    && (forall i :: 0 <= i < |txs| && txs[i].account == a.id ==> txs[i].date >= row.date + 1)
    && row.amount > 0
    && (row.kind == "credit" || row.kind == "debit")
    && (if row.kind == "credit" then row.amount else -row.amount) == Reported(a) - Sum(txs, a, false)
  }

  lemma BackfillMeaning(a: Account, txs: Transactions)
    requires Unopened(a, txs)
    ensures Backfill(a, txs).Skip? <==> !HasTransactions(a, txs) || Sum(txs, a, false) == Reported(a)
    ensures Backfill(a, txs).Insert? ==> IsOpeningRow(Backfill(a, txs).row, a, txs)
    ensures Backfill(a, txs).Insert? ==> Backfill(a, txs).row.date >= 1
    ensures Backfill(a, txs).Raise? ==> exists i :: 0 <= i < |txs| && txs[i].account == a.id && txs[i].date <= 1
  {
    WithoutOpening(txs, a);
    forall i | 0 <= i < |txs| && txs[i].account == a.id
      ensures Oldest(txs, a.id).Some? && Oldest(txs, a.id).value <= txs[i].date
    {
      OldestIsEarliest(txs, a.id, i);
    }
    if Oldest(txs, a.id).Some? {
      OldestIsReached(txs, a.id);
    }
  }

  lemma SelectedMeaning(a: Account, txs: Transactions)
    ensures IsSelected(a, txs) <==> Unopened(a, txs)
  {
  }

  /** Exactly which accounts get a row, and which row: the connected ones without an opening row whose
      transactions do not add up to the balance reported. */
  lemma OpeningRowsExactly(accounts: Accounts, txs: Transactions, a: Account)
    requires DistinctIds(accounts) && a in accounts && NoneRaises(Selected(accounts, txs), txs)
    ensures var rows := NewRows(Selected(accounts, txs), txs);
            && ((exists r :: 0 <= r < |rows| && rows[r].account == a.id) <==>
                  Unopened(a, txs) && HasTransactions(a, txs) && Sum(txs, a, false) != Reported(a))
            && (forall r :: 0 <= r < |rows| && rows[r].account == a.id ==> IsOpeningRow(rows[r], a, txs))
            && (forall r :: 0 <= r < |rows| ==> exists b :: b in accounts && IsOpeningRow(rows[r], b, txs))
  {
    hide Sum, Backfill, Oldest, IsOpeningRow;
    var selected := Selected(accounts, txs);
    var rows := NewRows(selected, txs);
    SelectedDistinct(accounts, txs);
    SelectedMeaning(a, txs);
    forall r | 0 <= r < |rows|
      ensures exists b :: b in accounts && IsOpeningRow(rows[r], b, txs)
      ensures rows[r].account == a.id ==> Unopened(a, txs) && IsOpeningRow(rows[r], a, txs)
      ensures rows[r].account == a.id ==> HasTransactions(a, txs) && Sum(txs, a, false) != Reported(a)
    {
      RowMeaning(accounts, txs, a, r);
    }
    if Unopened(a, txs) && HasTransactions(a, txs) && Sum(txs, a, false) != Reported(a) {
      BackfillMeaning(a, txs);
      var k :| 0 <= k < |selected| && selected[k] == a;
      assert !Backfill(selected[k], txs).Raise?;
      var r := OwnRowIsInserted(selected, txs, k);
    }
  }

  lemma RowMeaning(accounts: Accounts, txs: Transactions, a: Account, r: int)
    requires DistinctIds(accounts) && a in accounts
    requires 0 <= r < |NewRows(Selected(accounts, txs), txs)|
    ensures var row := NewRows(Selected(accounts, txs), txs)[r];
            && (exists b :: b in accounts && IsOpeningRow(row, b, txs))
            && (row.account == a.id ==>
                  Unopened(a, txs) && IsOpeningRow(row, a, txs)
                  && HasTransactions(a, txs) && Sum(txs, a, false) != Reported(a))
  {
    hide Sum, Oldest;
    var selected := Selected(accounts, txs);
    SelectedDistinct(accounts, txs);
    var k := NewRowOwner(selected, txs, r);
    var b := selected[k];
    assert b in selected;
    SelectedMeaning(b, txs);
    BackfillMeaning(b, txs);
    SameAccount(accounts, a, b);
  }

  /** The migration fails only where an account it selects has a transaction on the first day there is,
      and its transactions do not add up. */
  lemma RaisesOnlyAtTheStart(accounts: Accounts, txs: Transactions)
    requires DistinctIds(accounts)
    ensures !NoneRaises(Selected(accounts, txs), txs) ==>
              exists a, i :: a in accounts && Unopened(a, txs) && Sum(txs, a, false) != Reported(a)
                && 0 <= i < |txs| && txs[i].account == a.id && txs[i].date <= 1
  {
    var selected := Selected(accounts, txs);
    SelectedDistinct(accounts, txs);
    if k :| 0 <= k < |selected| && Backfill(selected[k], txs).Raise? {
      assert selected[k] in selected;
      SelectedMeaning(selected[k], txs);
      BackfillMeaning(selected[k], txs);
    }
  }

  // ---------- Undoing it ----------

  lemma {:induction false} DeleteAppend(txs: Transactions, more: Transactions, accounts: Accounts)
    ensures DeleteSynthetic(txs + more, accounts) == DeleteSynthetic(txs, accounts) + DeleteSynthetic(more, accounts)
  {
    if more == [] {
      assert txs + more == txs;
    } else {
      assert (txs + more)[..|txs + more| - 1] == txs + more[..|more| - 1];
      DeleteAppend(txs, more[..|more| - 1], accounts);
    }
  }

  lemma {:induction false} DeleteAll(rows: Transactions, accounts: Accounts)
    requires forall r :: 0 <= r < |rows| ==> IsSynthetic(rows[r], accounts)
    ensures DeleteSynthetic(rows, accounts) == []
  {
    if rows != [] {
      DeleteAll(rows[..|rows| - 1], accounts);
    }
  }

  lemma {:induction false} DeleteKeepsAllOrShrinks(txs: Transactions, accounts: Accounts)
    ensures |DeleteSynthetic(txs, accounts)| <= |txs|
    ensures DeleteSynthetic(txs, accounts) == txs <==>
            forall i :: 0 <= i < |txs| ==> !IsSynthetic(txs[i], accounts)
  {
    if txs != [] {
      var before, last := txs[..|txs| - 1], txs[|txs| - 1];
      DeleteKeepsAllOrShrinks(before, accounts);
      assert txs == before + [last];
      if IsSynthetic(last, accounts) {
        assert |DeleteSynthetic(txs, accounts)| < |txs|;
      } else {
        assert DeleteSynthetic(txs, accounts) == DeleteSynthetic(before, accounts) + [last];
        assert DeleteSynthetic(txs, accounts) == txs ==> DeleteSynthetic(before, accounts) == before by {
          if DeleteSynthetic(txs, accounts) == txs {
            assert DeleteSynthetic(txs, accounts)[..|before|] == DeleteSynthetic(before, accounts);
          }
        }
        assert forall i :: 0 <= i < |before| ==> before[i] == txs[i];
      }
    }
  }

  /** What downgrade deletes: the opening rows under the migration's description that belong to a
      connected account. Every other row stays, once for each time it was there. */
  ghost predicate Signature(t: Transaction, accounts: Accounts) {
    && t.source == "opening_balance" && t.description == "Saldo inicial"
    && exists a :: a in accounts && a.id == t.account && a.connection.Some?
  }

  lemma {:induction false} DowngradeExactly(txs: Transactions, accounts: Accounts, t: Transaction)
    ensures multiset(DeleteSynthetic(txs, accounts))[t] == if Signature(t, accounts) then 0 else multiset(txs)[t]
  {
    if txs != [] {
      var before, last := txs[..|txs| - 1], txs[|txs| - 1];
      DowngradeExactly(before, accounts, t);
      assert txs == before + [last];
      SignatureMeaning(last, accounts);
    }
  }

  lemma SignatureMeaning(t: Transaction, accounts: Accounts)
    ensures IsSynthetic(t, accounts) <==> Signature(t, accounts)
  {
    if Signature(t, accounts) {
      var a :| a in accounts && a.id == t.account && a.connection.Some?;
      var i :| 0 <= i < |accounts| && accounts[i] == a;
    }
  }

  /** Downgrade right after the migration restores the start exactly when no row with the
      migration's own signature existed before it. */
  lemma DowngradeRestoresExactly(accounts: Accounts, txs: Transactions)
    requires DistinctIds(accounts)
    ensures DeleteSynthetic(After(accounts, txs), accounts) == txs <==>
            forall i :: 0 <= i < |txs| ==> !IsSynthetic(txs[i], accounts)
  {
    var selected := Selected(accounts, txs);
    var rows := NewRows(selected, txs);
    SelectedDistinct(accounts, txs);
    forall r | 0 <= r < |rows| ensures IsSynthetic(rows[r], accounts) {
      var k := NewRowOwner(selected, txs, r);
      assert selected[k] in selected;
      var i :| 0 <= i < |accounts| && accounts[i] == selected[k];
    }
    DeleteAppend(txs, rows, accounts);
    DeleteAll(rows, accounts);
    DeleteKeepsAllOrShrinks(txs, accounts);
  }

  /** One account whose provider sync had already written its opening row, under the same
      description and source: the migration leaves it alone, and downgrade deletes it. */
  lemma DowngradeLosesRowExample()
    ensures var account := Account(1, 4, Some(2), 100, "BRL", "checking");
            var row := Transaction(4, 1, LABEL, 100, "BRL", None, 700, 700, "credit", OPENING, "posted");
            && After([account], [row]) == [row]
            && DeleteSynthetic(After([account], [row]), [account]) == []
  {
    var account := Account(1, 4, Some(2), 100, "BRL", "checking");
    var row := Transaction(4, 1, LABEL, 100, "BRL", None, 700, 700, "credit", OPENING, "posted");
    assert HasOpening([row], 1) by {
      assert [row][0].account == 1 && [row][0].source == OPENING;
    }
    assert Selected([account], [row]) == [] by {
      assert [account][1..] == [];
    }
    assert IsSynthetic(row, [account]) by {
      assert [account][0].id == row.account;
    }
    DeleteAll([row], [account]);
  }
}
