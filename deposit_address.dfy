/** The deposit-address assignment worker (`Workers::AMQP::DepositCoinAddress#process`)
    as a pure transition on a snapshot of the record store and of the worker's outputs.
    One call of `Assign` is one delivery of an `account_id` payload; the wallet
    service's answer and the connection-error classifier are parameters. */
module DepositAddress {
  import opened Wrappers

  type AccountId = int
  /** In this exchange a currency's code is its primary key. */
  type CurrencyId = string

  datatype CurrencyKind = Coin | Fiat

  datatype Currency = Currency(id: CurrencyId, kind: CurrencyKind)

  datatype Account = Account(id: AccountId, memberUid: string, currencyId: CurrencyId)

  datatype WalletKind = Deposit | NonDeposit

  datatype Wallet = Wallet(id: int, currencyId: CurrencyId, kind: WalletKind, active: bool)

  /** The open `details` attribute map of a payment address. */
  type Details = map<string, string>

  /** The payment-address row of one account; `address` is nil until assigned. */
  datatype PaymentAddress = PaymentAddress(
    currencyId: CurrencyId,
    address: Option<string>,
    secret: Option<string>,
    details: Details)

  /** The `details` entry of the wallet service's result hash: missing, explicitly nil, or a map. */
  datatype DetailsField = Absent | Nil | Given(entries: Details)

  /** The hash returned by `create_address!`; a missing `address` or `secret` key reads as nil. */
  datatype WalletResult = WalletResult(address: Option<string>, secret: Option<string>, details: DetailsField)

  /** A raised Ruby exception; `standard` tells whether its class descends from
      `StandardError`, the only kind the worker's `rescue` catches. */
  datatype Exception = Exception(klass: string, message: string, standard: bool)

  /** What the wallet service does when asked for an address: returns a result or raises. */
  datatype WalletOutcome = Created(result: WalletResult) | Raised(error: Exception)

  /** One call of the wallet service, as the service observes it. */
  datatype WalletCall = WalletCall(account: AccountId, wallet: Wallet, outcome: WalletOutcome)

  /** An event published to a member's channel. */
  datatype Notification = Notification(
    channel: string,
    uid: string,
    event: string,
    action: string,
    currency: CurrencyId,
    address: string)

  /** The record store together with everything the worker emits. */
  datatype State = State(
    accounts: map<AccountId, Account>,
    currencies: map<CurrencyId, Currency>,
    wallets: seq<Wallet>,
    addresses: map<AccountId, PaymentAddress>,
    walletCalls: seq<WalletCall>,
    retries: seq<AccountId>,
    notifications: seq<Notification>,
    warnings: seq<string>,
    reported: seq<Exception>)

  /** One delivery: the payload's `account_id` (None when the key is missing) and what the
      wallet service will do if it is called during this delivery. */
  datatype Delivery = Delivery(payload: Option<AccountId>, outcome: WalletOutcome)

  /** The state after one delivery and the exception `process` re-raises, if any. */
  datatype Outcome = Outcome(state: State, raised: Option<Exception>)

  /** Whitespace as Ruby's `String#blank?` sees it (ASCII part). */
  predicate IsSpace(c: char) {
    c == ' ' || c == '\t' || c == '\n' || c == '\r' || c == '\U{B}' || c == '\U{C}'
  }

  /** Ruby's `blank?` on a nullable string: nil, empty or only whitespace. */
  predicate Blank(s: Option<string>) {
    s.None? || forall i :: 0 <= i < |s.value| ==> IsSpace(s.value[i])
  }

  predicate Present(s: Option<string>) {
    !Blank(s)
  }

  /** Referential integrity the store keeps: an account is stored under its id, its currency
      exists, and a coin account has its payment address. */
  predicate Valid(s: State) {
    forall id :: id in s.accounts ==>
      && s.accounts[id].id == id
      && s.accounts[id].currencyId in s.currencies
      && (s.currencies[s.accounts[id].currencyId].kind == Coin ==> id in s.addresses)
  }

  /** `Wallet.active.deposit` restricted to `currency_id: cid`. */
  predicate ActiveDepositFor(w: Wallet, cid: CurrencyId) {
    w.active && w.kind == Deposit && w.currencyId == cid
  }

  /** `Wallet.active.deposit.find_by(currency_id: cid)`: the first matching wallet, if any. */
  function FindDepositWallet(ws: seq<Wallet>, cid: CurrencyId): (r: Option<Wallet>)
    ensures r.None? <==> forall i :: 0 <= i < |ws| ==> !ActiveDepositFor(ws[i], cid)
    ensures r.Some? ==> exists i :: 0 <= i < |ws| && ws[i] == r.value && ActiveDepositFor(ws[i], cid)
  {
    if ws == [] then None
    else if ActiveDepositFor(ws[0], cid) then Some(ws[0])
    else
      var r := FindDepositWallet(ws[1..], cid);
      assert r.Some? ==> exists i :: 0 <= i < |ws[1..]| && ws[1..][i] == r.value && ActiveDepositFor(ws[1..][i], cid);
      assert forall i :: 1 <= i < |ws| ==> ws[i] == ws[1..][i - 1];
      r
  }

  /** True when some active deposit wallet serves the account's currency. */
  predicate Eligible(s: State, id: AccountId)
    requires Valid(s)
  {
    && id in s.accounts
    && s.currencies[s.accounts[id].currencyId].kind == Coin
    && FindDepositWallet(s.wallets, s.accounts[id].currencyId).Some?
  }

  /** Ruby's `Hash#merge`: `result.merge(existing)`, so the existing entries win. */
  function MergeDetails(result: Details, existing: Details): (r: Details)
    ensures r.Keys == result.Keys + existing.Keys
    ensures forall k :: k in existing ==> r[k] == existing[k]
    ensures forall k :: k in result && k !in existing ==> r[k] == result[k]
  {
    result + existing
  }

  /** What `nil.merge(...)` raises. */
  const NilMergeError := Exception("NoMethodError", "undefined method `merge' for nil:NilClass", true)

  /** The text of the log warning for a currency without an active deposit wallet (the two
      string literals are joined without a space). */
  function MissingWalletWarning(cid: CurrencyId): string {
    "Unable to generate deposit address." + "Deposit Wallet for " + cid + " doesn't exist"
  }

  /** The body of the row-lock block once the address was found blank: call the wallet
      service and compute the row that `update!` persists, or the exception that escapes. */
  function Generate(pa: PaymentAddress, outcome: WalletOutcome): (r: Result<PaymentAddress, Exception>)
    ensures r.Success? <==> outcome.Created? && outcome.result.details != Nil
    ensures outcome.Raised? ==> r == Failure(outcome.error)
    ensures outcome.Created? && outcome.result.details == Nil ==> r == Failure(NilMergeError)
    ensures r.Success? ==>
      && r.value.currencyId == pa.currencyId
      && r.value.address == outcome.result.address
      && r.value.secret == outcome.result.secret
  {
    match outcome
    case Raised(e) => Failure(e)
    case Created(res) =>
      match res.details
      case Nil => Failure(NilMergeError)
      case Absent => Success(pa.(address := res.address, secret := res.secret, details := MergeDetails(map[], pa.details)))
      case Given(m) => Success(pa.(address := res.address, secret := res.secret, details := MergeDetails(m, pa.details)))
  }

  /** `ws_notify`: the `deposit_address` event published on the member's private channel. */
  function Notify(acc: Account, pa: PaymentAddress): Notification
    requires Present(pa.address)
  {
    Notification("private", acc.memberUid, "deposit_address", "create", pa.currencyId, pa.address.value)
  }

  /** The two lines after the lock block: re-enqueue when the address is blank, notify when not. */
  function AfterLock(s: State, acc: Account, pa: PaymentAddress): State {
    if Blank(pa.address) then s.(retries := s.retries + [acc.id])
    else s.(notifications := s.notifications + [Notify(acc, pa)])
  }

  /** The top-level `rescue StandardError`: an exception of another kind is not caught and
      escapes as it is; a caught connection error is re-raised; any other caught one is
      reported and swallowed. */
  function Rescue(s: State, e: Exception, isDbConnectionError: Exception -> bool): Outcome {
    if !e.standard then Outcome(s, Some(e))
    else if isDbConnectionError(e) then Outcome(s, Some(e))
    else Outcome(s.(reported := s.reported + [e]), None)
  }

  /** One run of `process(payload)`. */
  function Assign(s: State, payload: Option<AccountId>, outcome: WalletOutcome, isDbConnectionError: Exception -> bool): (o: Outcome)
    requires Valid(s)
    ensures Valid(o.state)
    ensures o.state.accounts == s.accounts && o.state.currencies == s.currencies && o.state.wallets == s.wallets
    ensures o.state.addresses.Keys == s.addresses.Keys
    ensures forall id :: id in s.addresses && (payload != Some(id) || Present(s.addresses[id].address)) ==>
      o.state.addresses[id] == s.addresses[id]
    ensures o.raised.Some? ==> !o.raised.value.standard || isDbConnectionError(o.raised.value)
    ensures o.raised.Some? ==> o.state.reported == s.reported
  {
    match payload
    case None => Outcome(s, None)
    case Some(id) =>
      if id !in s.accounts then Outcome(s, None)
      else
        var acc := s.accounts[id];
        if s.currencies[acc.currencyId].kind != Coin then Outcome(s, None)
        else
          match FindDepositWallet(s.wallets, acc.currencyId)
          case None => Outcome(s.(warnings := s.warnings + [MissingWalletWarning(acc.currencyId)]), None)
          case Some(wallet) =>
            var pa := s.addresses[id];
            if Present(pa.address) then Outcome(AfterLock(s, acc, pa), None)
            else
              var called := s.(walletCalls := s.walletCalls + [WalletCall(id, wallet, outcome)]);
              match Generate(pa, outcome)
              case Failure(e) => Rescue(called, e, isDbConnectionError)
              case Success(updated) =>
                Outcome(AfterLock(called.(addresses := called.addresses[id := updated]), acc, updated), None)
  }

  /** A sequence of deliveries processed one after another. Two concurrent deliveries of the
      same account are serialised by the row lock, so they are two consecutive elements here.
      A re-raised exception only makes the broker deliver the payload again, which is a later
      element of `ds`. */
  function Run(s: State, ds: seq<Delivery>, isDbConnectionError: Exception -> bool): (t: State)
    requires Valid(s)
    ensures Valid(t)
    ensures t.accounts == s.accounts && t.currencies == s.currencies && t.wallets == s.wallets
    ensures t.addresses.Keys == s.addresses.Keys
    decreases |ds|
  {
    if ds == [] then s
    else Run(Assign(s, ds[0].payload, ds[0].outcome, isDbConnectionError).state, ds[1..], isDbConnectionError)
  }

  /** The number of wallet-service calls made for account `a`. */
  function CallsFor(calls: seq<WalletCall>, a: AccountId): nat {
    if calls == [] then 0
    else CallsFor(calls[..|calls| - 1], a) + (if calls[|calls| - 1].account == a then 1 else 0)
  }

  /** A call whose result was persisted with a present address: a successful generation. */
  predicate Persists(c: WalletCall) {
    c.outcome.Created? && c.outcome.result.details != Nil && Present(c.outcome.result.address)
  }

  /** The number of successful generations for account `a`. */
  function GenerationsFor(calls: seq<WalletCall>, a: AccountId): nat {
    if calls == [] then 0
    else GenerationsFor(calls[..|calls| - 1], a) + (if calls[|calls| - 1].account == a && Persists(calls[|calls| - 1]) then 1 else 0)
  }

  lemma CountsAppend(calls: seq<WalletCall>, c: WalletCall, a: AccountId)
    ensures CallsFor(calls + [c], a) == CallsFor(calls, a) + (if c.account == a then 1 else 0)
    ensures GenerationsFor(calls + [c], a) == GenerationsFor(calls, a) + (if c.account == a && Persists(c) then 1 else 0)
  {
    assert (calls + [c])[..|calls|] == calls;
  }

  // ---------------------------------------------------------------------------
  // One delivery

  /** An unknown or missing `account_id` is handled silently. */
  lemma MissingAccountIsNoOp(s: State, payload: Option<AccountId>, outcome: WalletOutcome, isDbConnectionError: Exception -> bool)
    requires Valid(s)
    requires payload.None? || payload.value !in s.accounts
    ensures Assign(s, payload, outcome, isDbConnectionError) == Outcome(s, None)
  {
  }

  /** A fiat account is handled silently: no wallet call, no write, no retry, no notification. */
  lemma NonCoinIsNoOp(s: State, id: AccountId, outcome: WalletOutcome, isDbConnectionError: Exception -> bool)
    requires Valid(s)
    requires id in s.accounts && s.currencies[s.accounts[id].currencyId].kind != Coin
    ensures Assign(s, Some(id), outcome, isDbConnectionError) == Outcome(s, None)
  {
  }

  /** Without an active deposit wallet the only effect is one warning. */
  lemma MissingWalletOnlyWarns(s: State, id: AccountId, outcome: WalletOutcome, isDbConnectionError: Exception -> bool)
    requires Valid(s)
    requires id in s.accounts && s.currencies[s.accounts[id].currencyId].kind == Coin
    requires forall i :: 0 <= i < |s.wallets| ==> !ActiveDepositFor(s.wallets[i], s.accounts[id].currencyId)
    ensures Assign(s, Some(id), outcome, isDbConnectionError)
         == Outcome(s.(warnings := s.warnings + [MissingWalletWarning(s.accounts[id].currencyId)]), None)
  {
  }

  /** Redelivery for an account that already has an address calls nothing and writes nothing;
      it only publishes the notification again. */
  lemma PresentAddressIsIdempotent(s: State, id: AccountId, outcome: WalletOutcome, isDbConnectionError: Exception -> bool)
    requires Valid(s) && Eligible(s, id)
    requires Present(s.addresses[id].address)
    ensures Assign(s, Some(id), outcome, isDbConnectionError)
         == Outcome(s.(notifications := s.notifications + [Notify(s.accounts[id], s.addresses[id])]), None)
  {
  }

  /** A successful generation stores the result's address and secret and merges the details:
      every old entry is kept, every new key of the result is added. */
  lemma GenerationPersistsResult(s: State, id: AccountId, r: WalletResult, isDbConnectionError: Exception -> bool)
    requires Valid(s) && Eligible(s, id)
    requires Blank(s.addresses[id].address) && r.details != Nil
    ensures var o := Assign(s, Some(id), Created(r), isDbConnectionError);
            var old_pa, new_pa := s.addresses[id], o.state.addresses[id];
            var given := if r.details.Given? then r.details.entries else map[];
      && o.raised.None?
      && new_pa.address == r.address
      && new_pa.secret == r.secret
      && new_pa.currencyId == old_pa.currencyId
      && new_pa.details.Keys == old_pa.details.Keys + given.Keys
      && (forall k :: k in old_pa.details ==> new_pa.details[k] == old_pa.details[k])
      && (forall k :: k in given && k !in old_pa.details ==> new_pa.details[k] == given[k])
      && o.state.walletCalls
         == s.walletCalls + [WalletCall(id, FindDepositWallet(s.wallets, s.accounts[id].currencyId).value, Created(r))]
  {
  }

  /** When no exception escapes the lock block, exactly one of re-enqueue and notification
      happens, decided by the address as it stands after the block. */
  lemma RetryXorNotify(s: State, id: AccountId, outcome: WalletOutcome, isDbConnectionError: Exception -> bool)
    requires Valid(s) && Eligible(s, id)
    requires Present(s.addresses[id].address) || Generate(s.addresses[id], outcome).Success?
    ensures var o := Assign(s, Some(id), outcome, isDbConnectionError);
            var pa := o.state.addresses[id];
      && o.raised.None?
      && o.state.reported == s.reported
      && (Blank(pa.address) ==> o.state.retries == s.retries + [id] && o.state.notifications == s.notifications)
      && (Present(pa.address) ==>
            o.state.retries == s.retries && o.state.notifications == s.notifications + [Notify(s.accounts[id], pa)])
  {
  }

  /** On every delivery: a retry and a notification never both happen; a retry is only
      requested for a blank address, and a notification carries the stored address to the
      private channel of the account's member. */
  lemma RetryAndNotifyExclusive(s: State, d: Delivery, isDbConnectionError: Exception -> bool)
    requires Valid(s)
    ensures var t := Assign(s, d.payload, d.outcome, isDbConnectionError).state;
      && (t.retries == s.retries || t.notifications == s.notifications)
      && (t.retries != s.retries ==>
            d.payload.Some? && d.payload.value in t.addresses
            && t.retries == s.retries + [d.payload.value]
            && Blank(t.addresses[d.payload.value].address))
      && (t.notifications != s.notifications ==>
            && d.payload.Some? && d.payload.value in t.accounts && d.payload.value in t.addresses
            && |t.notifications| == |s.notifications| + 1
            && t.notifications[..|s.notifications|] == s.notifications
            && var n := t.notifications[|s.notifications|];
               var pa := t.addresses[d.payload.value];
               && Present(pa.address)
               && n.channel == "private"
               && n.uid == t.accounts[d.payload.value].memberUid
               && n.event == "deposit_address"
               && n.action == "create"
               && n.currency == pa.currencyId
               && n.address == pa.address.value)
  {
    var t := Assign(s, d.payload, d.outcome, isDbConnectionError).state;
    if t.notifications != s.notifications {
      assert t.notifications[..|s.notifications|] == s.notifications;
    }
  }

  /** When the wallet service raises (or returns nil details), nothing is written and neither a
      retry nor a notification happens. An exception that is not a `StandardError` escapes
      unreported; a `StandardError` is re-raised exactly when it is a connection error and
      reported otherwise. */
  lemma GenerationFailureIsContained(s: State, id: AccountId, outcome: WalletOutcome, isDbConnectionError: Exception -> bool)
    requires Valid(s) && Eligible(s, id)
    requires Blank(s.addresses[id].address) && Generate(s.addresses[id], outcome).Failure?
    ensures var o := Assign(s, Some(id), outcome, isDbConnectionError);
            var e := Generate(s.addresses[id], outcome).error;
      && o.state.addresses == s.addresses
      && o.state.retries == s.retries
      && o.state.notifications == s.notifications
      && |o.state.walletCalls| == |s.walletCalls| + 1
      && (!e.standard ==> o.raised == Some(e) && o.state.reported == s.reported)
      && (e.standard && isDbConnectionError(e) ==> o.raised == Some(e) && o.state.reported == s.reported)
      && (e.standard && !isDbConnectionError(e) ==> o.raised.None? && o.state.reported == s.reported + [e])
  {
  }

  /** What one delivery does to the counters of account `a`: wallet calls for `a` happen only
      while its address is blank, and a successful generation is logged exactly when the
      address goes from blank to present. */
  lemma StepCounts(s: State, d: Delivery, a: AccountId, isDbConnectionError: Exception -> bool)
    requires Valid(s) && a in s.addresses
    ensures var t := Assign(s, d.payload, d.outcome, isDbConnectionError).state;
      && (Present(s.addresses[a].address) ==> CallsFor(t.walletCalls, a) == CallsFor(s.walletCalls, a))
      && GenerationsFor(t.walletCalls, a) == GenerationsFor(s.walletCalls, a)
           + (if Blank(s.addresses[a].address) && Present(t.addresses[a].address) then 1 else 0)
  {
    var t := Assign(s, d.payload, d.outcome, isDbConnectionError).state;
    if t.walletCalls != s.walletCalls {
      var id := d.payload.value;
      var acc := s.accounts[id];
      var wallet := FindDepositWallet(s.wallets, acc.currencyId).value;
      var c := WalletCall(id, wallet, d.outcome);
      assert t.walletCalls == s.walletCalls + [c];
      CountsAppend(s.walletCalls, c, a);
      if id == a {
        assert Blank(s.addresses[a].address);
        assert Persists(c) <==> Present(t.addresses[a].address);
      } else {
        assert t.addresses[a] == s.addresses[a];
      }
    }
  }

  // ---------------------------------------------------------------------------
  // Repeated and concurrent deliveries

  /** Once an account has an address, no later delivery calls the wallet service for it or
      changes its row. */
  lemma {:induction false} PresentAddressNeverRegenerated(s: State, ds: seq<Delivery>, a: AccountId, isDbConnectionError: Exception -> bool)
    requires Valid(s) && a in s.addresses
    requires Present(s.addresses[a].address)
    ensures var t := Run(s, ds, isDbConnectionError);
      t.addresses[a] == s.addresses[a] && CallsFor(t.walletCalls, a) == CallsFor(s.walletCalls, a)
    decreases |ds|
  {
    if ds != [] {
      var o := Assign(s, ds[0].payload, ds[0].outcome, isDbConnectionError);
      StepCounts(s, ds[0], a, isDbConnectionError);
      PresentAddressNeverRegenerated(o.state, ds[1..], a, isDbConnectionError);
    }
  }

  /** At most one successful generation per account over any sequence of deliveries: exactly
      one when the address went from blank to present, none otherwise. */
  lemma {:induction false} AtMostOneGeneration(s: State, ds: seq<Delivery>, a: AccountId, isDbConnectionError: Exception -> bool)
    requires Valid(s) && a in s.addresses
    ensures var t := Run(s, ds, isDbConnectionError);
      GenerationsFor(t.walletCalls, a) == GenerationsFor(s.walletCalls, a)
        + (if Blank(s.addresses[a].address) && Present(t.addresses[a].address) then 1 else 0)
    decreases |ds|
  {
    if ds != [] {
      var s1 := Assign(s, ds[0].payload, ds[0].outcome, isDbConnectionError).state;
      StepCounts(s, ds[0], a, isDbConnectionError);
      AtMostOneGeneration(s1, ds[1..], a, isDbConnectionError);
      if Present(s1.addresses[a].address) {
        PresentAddressNeverRegenerated(s1, ds[1..], a, isDbConnectionError);
      }
    }
  }

  /** A delivery that fails in the wallet service, followed by one that succeeds, leaves the
      generated address stored, exactly one notification published and no retry requested. */
  lemma RetryConvergence(s: State, id: AccountId, e: Exception, r: WalletResult, isDbConnectionError: Exception -> bool)
    requires Valid(s) && Eligible(s, id)
    requires Blank(s.addresses[id].address)
    requires r.details != Nil && Present(r.address)
    ensures var t := Run(s, [Delivery(Some(id), Raised(e)), Delivery(Some(id), Created(r))], isDbConnectionError);
      && t.addresses[id].address == r.address
      && t.retries == s.retries
      && |t.notifications| == |s.notifications| + 1
      && t.notifications[|s.notifications|] == Notify(s.accounts[id], t.addresses[id])
      && GenerationsFor(t.walletCalls, id) == GenerationsFor(s.walletCalls, id) + 1
  {
    var ds := [Delivery(Some(id), Raised(e)), Delivery(Some(id), Created(r))];
    var s1 := Assign(s, Some(id), Raised(e), isDbConnectionError).state;
    var s2 := Assign(s1, Some(id), Created(r), isDbConnectionError).state;
    assert ds[1..] == [Delivery(Some(id), Created(r))];
    assert Run(s, ds, isDbConnectionError) == Run(s1, ds[1..], isDbConnectionError);
    assert Run(s1, ds[1..], isDbConnectionError) == s2;
    GenerationFailureIsContained(s, id, Raised(e), isDbConnectionError);
    GenerationPersistsResult(s1, id, r, isDbConnectionError);
    RetryXorNotify(s1, id, Created(r), isDbConnectionError);
    AtMostOneGeneration(s, ds, id, isDbConnectionError);
  }
}
