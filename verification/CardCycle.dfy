/** Credit-card billing cycles: migration 030, which moves every card transaction to the
    due date of the invoice it belongs to. */
module CardCycle {
  import opened Wrappers
  import opened Calendar

  function Min(a: int, b: int): int {
    if a <= b then a else b
  }

  /** The configured day of a month, pulled back to the month's last day.
      None where Python's `date` raises: a day below 1 or a year past 9999. */
  function ClampDay(year: int, month: int, day: int): Option<Date>
    requires 1 <= month <= 12
  {
    if year > MAX_YEAR || day < 1 then None
    else Some(Date(year, month, Min(day, MonthLength(year, month))))
  }

  /** This month's clamped day if it lies strictly after `ref`, else next month's. */
  function FollowingDay(ref: Date, day: int): Option<Date>
    requires Valid(ref)
  {
    match ClampDay(ref.year, ref.month, day)
    case None => None
    case Some(sameMonth) =>
      if Before(ref, sameMonth) then Some(sameMonth)
      else if ref.month == 12 then ClampDay(ref.year + 1, 1, day)
      else ClampDay(ref.year, ref.month + 1, day)
  }

  /** The close that ends the transaction's cycle, then the due date after that close. */
  function ComputeEffectiveDate(txDate: Date, closeDay: int, dueDay: int): Option<Date>
    requires Valid(txDate)
  {
    match FollowingDay(txDate, closeDay)
    case None => None
    case Some(cycleEnd) =>
      FollowingDayIsValid(txDate, closeDay);
      FollowingDay(cycleEnd, dueDay)
  }

  // ---------- What the functions mean ----------

  /** `d` is the clamped occurrence of `day` in its month. */
  ghost predicate OccursOn(d: Date, day: int) {
    Valid(d) && d.day == Min(day, MonthLength(d.year, d.month))
  }

  /** `n` is the least occurrence of `day` strictly after `ref`, in an unbounded calendar. */
  ghost predicate IsFollowing(n: Date, ref: Date, day: int) {
    && OccursOn(n, day)
    && Before(ref, n)
    && forall c :: OccursOn(c, day) && Before(ref, c) ==> !Before(c, n)
  }

  lemma FollowingDayIsValid(ref: Date, day: int)
    requires Valid(ref)
    ensures FollowingDay(ref, day).Some? ==> Valid(FollowingDay(ref, day).value)
  {
  }

  lemma FollowingDayIsLeast(ref: Date, day: int)
    requires Valid(ref)
    ensures FollowingDay(ref, day).Some? ==>
              FollowingDay(ref, day).value.year <= MAX_YEAR && IsFollowing(FollowingDay(ref, day).value, ref, day)
  {
  }

  lemma FollowingIsUnique(m: Date, n: Date, ref: Date, day: int)
    requires IsFollowing(m, ref, day) && IsFollowing(n, ref, day)
    ensures m == n
  {
  }

  /** `FollowingDay` fails exactly when every later occurrence lies past the last year. */
  lemma FollowingDayFails(ref: Date, day: int)
    requires Valid(ref) && ref.year <= MAX_YEAR && day >= 1
    ensures FollowingDay(ref, day).None? <==>
              forall c :: OccursOn(c, day) && Before(ref, c) ==> c.year > MAX_YEAR
  {
    FollowingDayIsLeast(ref, day);
    if FollowingDay(ref, day).Some? {
      var n := FollowingDay(ref, day).value;
      assert OccursOn(n, day) && Before(ref, n);
    }
  }

  /** The effective date is the least due date after the least close date after the
      transaction; none is given exactly when that date lies past Python's last year. */
  lemma EffectiveDateIsLeastDue(txDate: Date, closeDay: int, dueDay: int, e: Date)
    requires Valid(txDate) && txDate.year <= MAX_YEAR && closeDay >= 1 && dueDay >= 1
    ensures ComputeEffectiveDate(txDate, closeDay, dueDay) == Some(e) <==>
            && e.year <= MAX_YEAR
            && exists c :: IsFollowing(c, txDate, closeDay) && IsFollowing(e, c, dueDay)
  {
    FollowingDayIsLeast(txDate, closeDay);
    if ComputeEffectiveDate(txDate, closeDay, dueDay) == Some(e) {
      FollowingDayIsLeast(FollowingDay(txDate, closeDay).value, dueDay);
    }
    if e.year <= MAX_YEAR && exists c :: IsFollowing(c, txDate, closeDay) && IsFollowing(e, c, dueDay) {
      var c :| IsFollowing(c, txDate, closeDay) && IsFollowing(e, c, dueDay);
      FollowingDayFails(txDate, closeDay);
      FollowingIsUnique(c, FollowingDay(txDate, closeDay).value, txDate, closeDay);
      FollowingDayFails(c, dueDay);
      FollowingDayIsLeast(c, dueDay);
      FollowingIsUnique(e, FollowingDay(c, dueDay).value, c, dueDay);
    }
  }

  lemma FollowingDayMonotone(a: Date, b: Date, day: int)
    requires Valid(a) && Valid(b) && !Before(b, a) && a.year <= MAX_YEAR
    requires FollowingDay(b, day).Some?
    ensures FollowingDay(a, day).Some?
    ensures !Before(FollowingDay(b, day).value, FollowingDay(a, day).value)
  {
    FollowingDayIsLeast(b, day);
    var n := FollowingDay(b, day).value;
    assert OccursOn(n, day) && Before(a, n);
    FollowingDayFails(a, day);
    FollowingDayIsLeast(a, day);
  }

  /** A later transaction never falls due earlier, across month ends, leap years and year ends. */
  lemma EffectiveDateMonotone(a: Date, b: Date, closeDay: int, dueDay: int)
    requires Valid(a) && Valid(b) && !Before(b, a) && a.year <= MAX_YEAR
    requires ComputeEffectiveDate(b, closeDay, dueDay).Some?
    ensures ComputeEffectiveDate(a, closeDay, dueDay).Some?
    ensures !Before(ComputeEffectiveDate(b, closeDay, dueDay).value, ComputeEffectiveDate(a, closeDay, dueDay).value)
  {
    FollowingDayMonotone(a, b, closeDay);
    FollowingDayIsLeast(a, closeDay);
    FollowingDayMonotone(FollowingDay(a, closeDay).value, FollowingDay(b, closeDay).value, dueDay);
  }

  /** A transaction dated on the close day is not billed by the invoice closing that day,
      which still takes every earlier transaction of its cycle. */
  lemma CloseDayGoesToNextInvoice(t: Date, earlier: Date, closeDay: int)
    requires OccursOn(t, closeDay) && Valid(earlier) && Before(earlier, t)
    requires FollowingDay(t, closeDay).Some?
    ensures FollowingDay(earlier, closeDay).Some?
    ensures !Before(t, FollowingDay(earlier, closeDay).value)
    ensures Before(t, FollowingDay(t, closeDay).value)
  {
    FollowingDayMonotone(earlier, t, closeDay);
    FollowingDayIsLeast(earlier, closeDay);
    FollowingDayIsLeast(t, closeDay);
  }

  // ---------- How far ahead the due date lies ----------

  lemma FollowingDayGap(ref: Date, day: int)
    requires Valid(ref) && FollowingDay(ref, day).Some?
    ensures Valid(FollowingDay(ref, day).value)
    ensures 1 <= Ordinal(FollowingDay(ref, day).value) - Ordinal(ref) <= 31
  {
    var n := FollowingDay(ref, day).value;
    FollowingDayIsLeast(ref, day);
    OrdinalOrder(ref, n);
    if n.year > ref.year {
      MonthsFillYear(ref.year);
    }
  }

  /** Two to sixty-two days pass between the transaction and its effective date. */
  lemma EffectiveDateGap(txDate: Date, closeDay: int, dueDay: int)
    requires Valid(txDate) && ComputeEffectiveDate(txDate, closeDay, dueDay).Some?
    ensures Valid(ComputeEffectiveDate(txDate, closeDay, dueDay).value)
    ensures 2 <= Ordinal(ComputeEffectiveDate(txDate, closeDay, dueDay).value) - Ordinal(txDate) <= 62
  {
    FollowingDayGap(txDate, closeDay);
    FollowingDayGap(FollowingDay(txDate, closeDay).value, dueDay);
  }

  /** Both bounds of `EffectiveDateGap` are reached. */
  lemma EffectiveDateGapIsTight()
    ensures ComputeEffectiveDate(Date(2026, 4, 10), 11, 12) == Some(Date(2026, 4, 12))
    ensures Ordinal(Date(2026, 4, 12)) - Ordinal(Date(2026, 4, 10)) == 2
    ensures ComputeEffectiveDate(Date(2026, 7, 1), 1, 1) == Some(Date(2026, 9, 1))
    ensures Ordinal(Date(2026, 9, 1)) - Ordinal(Date(2026, 7, 1)) == 62
  {
    assert DaysBeforeMonth(2026, 9) == DaysBeforeMonth(2026, 8) + 31;
    assert DaysBeforeMonth(2026, 8) == DaysBeforeMonth(2026, 7) + 31;
  }

  // ---------- When two cycles share a due date ----------

  /** Transactions of different billing cycles never get the same effective date. */
  ghost predicate CyclesStayApart(closeDay: int, dueDay: int) {
    forall a, b ::
      && Valid(a) && Valid(b)
      && ComputeEffectiveDate(a, closeDay, dueDay).Some?
      && ComputeEffectiveDate(b, closeDay, dueDay).Some?
      && FollowingDay(a, closeDay) != FollowingDay(b, closeDay)
      ==> ComputeEffectiveDate(a, closeDay, dueDay) != ComputeEffectiveDate(b, closeDay, dueDay)
  }

  /** Outside the clamping range the due month is fixed by the close month. */
  lemma DueMonth(c: Date, closeDay: int, dueDay: int)
    requires 1 <= closeDay <= 31 && 1 <= dueDay <= 31
    requires OccursOn(c, closeDay) && FollowingDay(c, dueDay).Some?
    ensures var e := FollowingDay(c, dueDay).value;
            && (dueDay <= closeDay ==>
                  e.month == c.month % 12 + 1 && e.year == c.year + if c.month == 12 then 1 else 0)
            && (closeDay < dueDay && closeDay <= 27 ==> e.month == c.month && e.year == c.year)
  {
  }

  lemma CyclesStayApartIf(closeDay: int, dueDay: int, a: Date, b: Date)
    requires 1 <= closeDay <= 31 && 1 <= dueDay <= 31
    requires dueDay <= closeDay || closeDay <= 27
    requires Valid(a) && Valid(b)
    requires FollowingDay(a, closeDay) != FollowingDay(b, closeDay)
    requires ComputeEffectiveDate(a, closeDay, dueDay).Some? && ComputeEffectiveDate(b, closeDay, dueDay).Some?
    ensures ComputeEffectiveDate(a, closeDay, dueDay) != ComputeEffectiveDate(b, closeDay, dueDay)
  {
    FollowingDayIsLeast(a, closeDay);
    FollowingDayIsLeast(b, closeDay);
    DueMonth(FollowingDay(a, closeDay).value, closeDay, dueDay);
    DueMonth(FollowingDay(b, closeDay).value, closeDay, dueDay);
  }

  /** When the due day is later than a close day of 28 or more, a 28-day February pushes its
      invoice onto March's due date. */
  lemma FebruaryMergesIntoMarch(closeDay: int, dueDay: int)
    requires 28 <= closeDay < dueDay <= 31
    ensures FollowingDay(Date(2021, 2, 1), closeDay) == Some(Date(2021, 2, 28))
    ensures FollowingDay(Date(2021, 3, 1), closeDay) == Some(Date(2021, 3, closeDay))
    ensures ComputeEffectiveDate(Date(2021, 2, 1), closeDay, dueDay) == Some(Date(2021, 3, dueDay))
    ensures ComputeEffectiveDate(Date(2021, 3, 1), closeDay, dueDay) == Some(Date(2021, 3, dueDay))
  {
  }

  /** Exactly which card settings keep every pair of billing cycles apart. */
  lemma CyclesStayApartExactly(closeDay: int, dueDay: int)
    requires 1 <= closeDay <= 31 && 1 <= dueDay <= 31
    ensures CyclesStayApart(closeDay, dueDay) <==> dueDay <= closeDay || closeDay <= 27
  {
    if dueDay <= closeDay || closeDay <= 27 {
      forall a, b |
        && Valid(a) && Valid(b)
        && ComputeEffectiveDate(a, closeDay, dueDay).Some?
        && ComputeEffectiveDate(b, closeDay, dueDay).Some?
        && FollowingDay(a, closeDay) != FollowingDay(b, closeDay)
        ensures ComputeEffectiveDate(a, closeDay, dueDay) != ComputeEffectiveDate(b, closeDay, dueDay)
      {
        CyclesStayApartIf(closeDay, dueDay, a, b);
      }
    } else {
      FebruaryMergesIntoMarch(closeDay, dueDay);
    }
  }

  // ---------- The rebucketing loop ----------

  type Id = nat

  datatype Account = Account(kind: string, closeDay: Option<int>, dueDay: Option<int>)

  datatype Transaction = Transaction(account: Id, date: Date, effective: Date)

  predicate IsBilledCard(a: Account) {
    a.kind == "credit_card" && a.closeDay.Some? && a.dueDay.Some?
  }

  /** A row's own effective date under the card's settings; None where the loop raises. */
  function Rebucketed(accounts: map<Id, Account>, tx: Transaction): Option<Date>
    requires Valid(tx.date)
  {
    if tx.account in accounts && IsBilledCard(accounts[tx.account]) then
      var card := accounts[tx.account];
      ComputeEffectiveDate(tx.date, card.closeDay.value, card.dueDay.value)
    else
      Some(tx.effective)
  }

  // ---------- In terms of the tables alone ----------

  /** The row belongs to a credit card with these two days configured. */
  ghost predicate BilledWith(accounts: map<Id, Account>, tx: Transaction, closeDay: int, dueDay: int) {
    tx.account in accounts && accounts[tx.account] == Account("credit_card", Some(closeDay), Some(dueDay))
  }

  /** `e` is a date Python can hold, and the least due date after the least close date after `date`. */
  ghost predicate DueOn(e: Date, date: Date, closeDay: int, dueDay: int) {
    && closeDay >= 1 && dueDay >= 1 && e.year <= 9999
    && exists close :: IsFollowing(close, date, closeDay) && IsFollowing(e, close, dueDay)
  }

  lemma DueOnExactly(date: Date, closeDay: int, dueDay: int, e: Date)
    requires Valid(date)
    ensures ComputeEffectiveDate(date, closeDay, dueDay) == Some(e) <==> DueOn(e, date, closeDay, dueDay)
  {
    if closeDay >= 1 && dueDay >= 1 && date.year <= MAX_YEAR {
      EffectiveDateIsLeastDue(date, closeDay, dueDay, e);
    }
  }

  /** A row ends with its own due date if it belongs to a credit card with both days configured, and
      as it was otherwise; there is no such date exactly where the loop raises. */
  lemma RebucketedExactly(accounts: map<Id, Account>, tx: Transaction)
    requires Valid(tx.date)
    ensures forall closeDay, dueDay, e :: BilledWith(accounts, tx, closeDay, dueDay) ==>
              (Rebucketed(accounts, tx) == Some(e) <==> DueOn(e, tx.date, closeDay, dueDay))
    ensures (forall closeDay, dueDay :: !BilledWith(accounts, tx, closeDay, dueDay)) ==>
              Rebucketed(accounts, tx) == Some(tx.effective)
  {
    if tx.account in accounts && IsBilledCard(accounts[tx.account]) {
      var card := accounts[tx.account];
      assert BilledWith(accounts, tx, card.closeDay.value, card.dueDay.value);
      forall e ensures Rebucketed(accounts, tx) == Some(e) <==>
                       DueOn(e, tx.date, card.closeDay.value, card.dueDay.value) {
        DueOnExactly(tx.date, card.closeDay.value, card.dueDay.value, e);
      }
    }
  }

  /** What the migration makes of one row. */
  ghost predicate RowBilled(accounts: map<Id, Account>, before: Transaction, after: Transaction) {
    && after == before.(effective := after.effective)
    && (forall closeDay, dueDay :: BilledWith(accounts, before, closeDay, dueDay) ==>
          DueOn(after.effective, before.date, closeDay, dueDay))
    && ((forall closeDay, dueDay :: !BilledWith(accounts, before, closeDay, dueDay)) ==> after == before)
  }

  /** The row's due date lies past the last year, or one of the two days is not a day. */
  ghost predicate CannotBeBilled(accounts: map<Id, Account>, tx: Transaction) {
    exists closeDay, dueDay :: BilledWith(accounts, tx, closeDay, dueDay)
      && forall e :: !DueOn(e, tx.date, closeDay, dueDay)
  }

  lemma BillingMeaning(accounts: map<Id, Account>, tx: Transaction)
    requires Valid(tx.date)
    ensures Rebucketed(accounts, tx).None? <==> CannotBeBilled(accounts, tx)
    ensures Rebucketed(accounts, tx).Some? ==>
              RowBilled(accounts, tx, tx.(effective := Rebucketed(accounts, tx).value))
  {
    RebucketedExactly(accounts, tx);
    if Rebucketed(accounts, tx).None? {
      var card := accounts[tx.account];
      assert BilledWith(accounts, tx, card.closeDay.value, card.dueDay.value);
    }
  }

  class CardLedger {
    var accounts: map<Id, Account>
    var transactions: map<Id, Transaction>

    ghost predicate DatesValid()
      reads this
    {
      forall t :: t in transactions ==> Valid(transactions[t].date)
    }

    /** `t`'s row has been given its own rebucketed date. */
    ghost predicate Moved(start: map<Id, Transaction>, t: Id)
      requires t in start && Valid(start[t].date)
      reads this
    {
      && Rebucketed(accounts, start[t]).Some?
      && t in transactions
      && transactions[t] == start[t].(effective := Rebucketed(accounts, start[t]).value)
    }

    /** One card's rows, one at a time; stops at a date past year 9999. */
    method RebucketCard(card: Id) returns (ok: bool)
      requires DatesValid() && card in accounts && IsBilledCard(accounts[card])
      modifies this`transactions
      ensures transactions.Keys == old(transactions).Keys
      ensures ok ==> forall t :: t in old(transactions) && old(transactions)[t].account == card ==>
                Moved(old(transactions), t)
      ensures ok ==> forall t :: t in old(transactions) && old(transactions)[t].account != card ==>
                transactions[t] == old(transactions)[t]
      ensures ok ==> forall t :: t in old(transactions) && old(transactions)[t].account == card ==>
                RowBilled(accounts, old(transactions)[t], transactions[t])
      ensures !ok ==> exists t :: (t in old(transactions) && old(transactions)[t].account == card
                                   && Rebucketed(accounts, old(transactions)[t]).None?)
    {
      hide DueOn, BilledWith, RowBilled;
      ghost var start := transactions;
      var close, due := accounts[card].closeDay.value, accounts[card].dueDay.value;
      var todo := set t | t in transactions && transactions[t].account == card;
      while todo != {}
        invariant transactions.Keys == start.Keys
        invariant forall t :: t in todo ==> t in start && start[t].account == card
        invariant forall t :: t in start && (t in todo || start[t].account != card) ==> transactions[t] == start[t]
        invariant forall t :: t in start && t !in todo && start[t].account == card ==>
                    Moved(start, t) && RowBilled(accounts, start[t], transactions[t])
        decreases todo
      {
        var t :| t in todo;
        match ComputeEffectiveDate(transactions[t].date, close, due)
        case None =>
          assert Rebucketed(accounts, start[t]).None?;
          return false;
        case Some(e) =>
          BillingMeaning(accounts, start[t]);
          transactions := transactions[t := transactions[t].(effective := e)];
          todo := todo - {t};
      }
      ok := true;
    }

    /** Walks the billed cards and, for each, its rows. A date past year 9999 raises, and
        the enclosing database transaction is rolled back. */
    method Upgrade() returns (ok: bool)
      requires DatesValid()
      modifies this`transactions
      ensures ok <==> forall t :: t in old(transactions) ==> Rebucketed(accounts, old(transactions)[t]).Some?
      ensures !ok ==> transactions == old(transactions)
      ensures ok ==> transactions.Keys == old(transactions).Keys
      ensures ok ==> forall t :: t in old(transactions) ==> Moved(old(transactions), t)
      ensures ok ==> forall t :: t in old(transactions) ==> RowBilled(accounts, old(transactions)[t], transactions[t])
      ensures ok <==> forall t :: t in old(transactions) ==> !CannotBeBilled(accounts, old(transactions)[t])
    {
      hide DueOn, BilledWith;
      ghost var start := transactions;
      forall t | t in start
        ensures Rebucketed(accounts, start[t]).None? <==> CannotBeBilled(accounts, start[t])
        ensures Rebucketed(accounts, start[t]).Some? ==>
                  RowBilled(accounts, start[t], start[t].(effective := Rebucketed(accounts, start[t]).value))
      {
        BillingMeaning(accounts, start[t]);
      }
      var before := transactions;
      var left := set a | a in accounts && IsBilledCard(accounts[a]);
      ghost var cards := left;
      while left != {}
        invariant left <= cards && DatesValid()
        invariant transactions.Keys == start.Keys
        invariant forall t :: t in start ==> transactions[t].account == start[t].account
        invariant forall t :: t in start ==>
          if start[t].account in cards && start[t].account !in left then Moved(start, t)
          else transactions[t] == start[t]
        decreases left
      {
        var card :| card in left;
        ok := RebucketCard(card);
        if !ok {
          transactions := before;
          return;
        }
        left := left - {card};
      }
      ok := true;
    }
  }

  /** On a billed card the rebucketed row lies within the 2 to 62 day window after its own date. */
  lemma RebucketedGap(accounts: map<Id, Account>, tx: Transaction)
    requires Valid(tx.date) && Rebucketed(accounts, tx).Some?
    requires tx.account in accounts && IsBilledCard(accounts[tx.account])
    ensures Valid(Rebucketed(accounts, tx).value)
    ensures 2 <= Ordinal(Rebucketed(accounts, tx).value) - Ordinal(tx.date) <= 62
  {
    var card := accounts[tx.account];
    EffectiveDateGap(tx.date, card.closeDay.value, card.dueDay.value);
  }
}
