/** The worker as the program runs it: a record store whose rows and output logs are
    updated in place, and `Process`, which walks the steps of
    `Workers::AMQP::DepositCoinAddress#process` with its early returns. `Process` is proved
    to do exactly what `DepositAddress.Assign` describes, so every lemma proved there holds
    of it. */
module DepositWorker {
  import opened Wrappers
  import opened DepositAddress

  /** The record store (accounts, currencies, wallets, payment addresses) and the sinks the
      worker writes to: the wallet service, the job queue, the event publisher, the log and
      the exception reporter. */
  class Store {
    var accounts: map<AccountId, Account>
    var currencies: map<CurrencyId, Currency>
    var wallets: seq<Wallet>
    var addresses: map<AccountId, PaymentAddress>
    var walletCalls: seq<WalletCall>
    var retries: seq<AccountId>
    var notifications: seq<Notification>
    var warnings: seq<string>
    var reported: seq<Exception>

    function Snapshot(): State
      reads this
    {
      State(accounts, currencies, wallets, addresses, walletCalls, retries, notifications, warnings, reported)
    }

    predicate Valid()
      reads this
    {
      DepositAddress.Valid(Snapshot())
    }

    /** A store holding the given records, with nothing emitted yet. */
    constructor (accounts: map<AccountId, Account>, currencies: map<CurrencyId, Currency>,
                 wallets: seq<Wallet>, addresses: map<AccountId, PaymentAddress>)
      requires DepositAddress.Valid(State(accounts, currencies, wallets, addresses, [], [], [], [], []))
      ensures Valid()
      ensures Snapshot() == State(accounts, currencies, wallets, addresses, [], [], [], [], [])
    {
      this.accounts := accounts;
      this.currencies := currencies;
      this.wallets := wallets;
      this.addresses := addresses;
      walletCalls, retries, notifications, warnings, reported := [], [], [], [], [];
    }

    /** `wallet_service.create_address!(acc)`, as the wallet service records it. */
    method CallWalletService(call: WalletCall)
      modifies this
      ensures Snapshot() == old(Snapshot()).(walletCalls := old(walletCalls) + [call])
    {
      walletCalls := walletCalls + [call];
    }

    /** `pa.update!(address:, secret:, details:)` on the row of account `id`. */
    method UpdatePaymentAddress(id: AccountId, pa: PaymentAddress)
      requires id in addresses
      modifies this
      ensures Snapshot() == old(Snapshot()).(addresses := old(addresses)[id := pa])
    {
      addresses := addresses[id := pa];
    }

    /** `pa.enqueue_address_generation`: a new request for the same account. */
    method EnqueueAddressGeneration(id: AccountId)
      modifies this
      ensures Snapshot() == old(Snapshot()).(retries := old(retries) + [id])
    {
      retries := retries + [id];
    }

    /** `Peatio::Ranger::Events.publish`. */
    method Publish(n: Notification)
      modifies this
      ensures Snapshot() == old(Snapshot()).(notifications := old(notifications) + [n])
    {
      notifications := notifications + [n];
    }

    /** `Rails.logger.warn`. */
    method Warn(message: string)
      modifies this
      ensures Snapshot() == old(Snapshot()).(warnings := old(warnings) + [message])
    {
      warnings := warnings + [message];
    }

    /** `report_exception(e)`. */
    method ReportException(e: Exception)
      modifies this
      ensures Snapshot() == old(Snapshot()).(reported := old(reported) + [e])
    {
      reported := reported + [e];
    }
  }

  /** `process(payload)`: `payload` is the `account_id` entry, `outcome` what the wallet
      service does if it is called, `isDbConnectionError` the classifier used by the rescue.
      Returns the exception that is re-raised to the broker, if any. */
  method Process(store: Store, payload: Option<AccountId>, outcome: WalletOutcome,
                 isDbConnectionError: Exception -> bool) returns (raised: Option<Exception>)
    requires store.Valid()
    modifies store
    ensures store.Valid()
    ensures Outcome(store.Snapshot(), raised) == Assign(old(store.Snapshot()), payload, outcome, isDbConnectionError)
  {
    raised := None;
    if payload.None? {
      return;
    }
    var id := payload.value;
    if id !in store.accounts {
      return;
    }
    var acc := store.accounts[id];
    if store.currencies[acc.currencyId].kind != Coin {
      return;
    }
    var wallet := FindDepositWallet(store.wallets, acc.currencyId);
    if wallet.None? {
      store.Warn(MissingWalletWarning(acc.currencyId));
      return;
    }

    // The row-lock block, as one atomic step.
    var pa := store.addresses[id];
    var failure: Option<Exception> := None;
    if Blank(pa.address) {
      store.CallWalletService(WalletCall(id, wallet.value, outcome));
      var generated := Generate(pa, outcome);
      match generated {
        case Failure(e) =>
          failure := Some(e);
        case Success(updated) =>
          store.UpdatePaymentAddress(id, updated);
          pa := updated;
      }
    }

    // The top-level rescue: the exception skips the lines after the block, and only a
    // StandardError is caught.
    if failure.Some? {
      if !failure.value.standard || isDbConnectionError(failure.value) {
        raised := failure;
      } else {
        store.ReportException(failure.value);
      }
      return;
    }

    if Blank(pa.address) {
      store.EnqueueAddressGeneration(id);
    }
    if !Blank(pa.address) {
      store.Publish(Notify(acc, pa));
    }
  }
}
