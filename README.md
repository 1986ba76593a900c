# Peatio: deposit-address assignment and admin currency parameters

This project models two parts of the Peatio exchange in Dafny and proves properties about them.

**The deposit-address worker.** `Workers::AMQP::DepositCoinAddress#process` receives an `account_id` from the message broker. It then:

- resolves the account;
- skips fiat currencies;
- finds the active deposit wallet for the currency, or warns and stops;
- under a row lock, asks the wallet service for an address, but only if the payment address is still blank;
- stores the address, secret and merged details;
- re-enqueues generation when the address is still blank, or publishes a `deposit_address` event when it is present.

Errors are handled at the top level by `rescue StandardError`. A caught database-connection error is re-raised to the broker, and any other caught error is reported and swallowed. An exception that is not a `StandardError` is not caught: it escapes unreported.

- `DepositAddress` describes one delivery as a pure transition, `Assign`, on a snapshot of the record store and the worker's outputs. `Run` is a sequence of such deliveries.
- `DepositWorker` holds the record store as a class (`Store`) with fields updated in place. `Process` walks the worker's steps with its early returns, and is proved to produce exactly the outcome `Assign` describes.

**The admin currency endpoints.** This part covers:

- the `OPTIONAL_CURRENCY_PARAMS` rule table;
- the parameter blocks of `post '/currencies/new'` and `post '/currencies/update'`;
- the endpoint bodies.

`CurrencyParams` validates a request. The result is either the errors Grape would report, or the `declared(params)` map the body receives. `CurrencyAdmin` models the bodies in two forms. `CreateStep` and `UpdateStep` are functions over the stored currencies. `CurrencyTable.Create` and `CurrencyTable.Update` are methods on a table updated in place, and are proved equal to those functions.

Values that lie outside the model are parameters:

- what the wallet service does (`WalletOutcome`);
- the `is_db_connection_error?` classifier (`Exception -> bool`);
- the set of blockchain keys;
- the outcome of ActiveRecord's `save` or `update`, with its messages.

Where the behaviour is open to two readings, the model follows the code:

- **Details merge.** The worker computes `result.fetch(:details, {}).merge(pa.details)`. The payment address's existing details therefore win over the result's on a shared key. A result whose `details` entry is explicitly nil makes `nil.merge` raise, so that delivery goes down the rescue path.
- **Status of a successful update.** The update body never sets a status, so Grape's default for a POST, 201, applies.
- **Blockchain key of a non-coin create.** When `type` is not `coin`, the `given` block's validators do not run, but `declared(params)` still holds `blockchain_key`. The created currency therefore takes the supplied key unchecked, or nil.
- **Creating an existing code.** `save` inserts a new row and can never replace a stored currency, so a create whose code is already stored answers 422.
- **The warning text.** The two string literals of the warning are joined without a space: `"Unable to generate deposit address.Deposit Wallet for <id> doesn't exist"`.

## Model

| member | source | states |
|---|---|---|
| DepositAddress.FindDepositWallet | app/workers/amqp/deposit_coin_address.rb:14 | The result is None exactly when no active deposit wallet serves the currency. Otherwise it is one of the listed wallets, and that wallet is active, a deposit wallet and serves the currency. |
| DepositAddress.MergeDetails | app/workers/amqp/deposit_coin_address.rb:33 | Every key of either map is present. Existing entries keep their value, and result keys that are new take the result's value. |
| DepositAddress.MissingWalletWarning | app/workers/amqp/deposit_coin_address.rb:16-19 | The warning text, with the two literals joined without a space; `MissingWalletOnlyWarns` states that it is the only effect. |
| DepositAddress.Notify | app/workers/amqp/deposit_coin_address.rb:53-59 | The `ws_notify` event; `RetryAndNotifyExclusive` states its channel, uid, event, action, currency and address. |
| DepositAddress.AfterLock | app/workers/amqp/deposit_coin_address.rb:36-39 | The retry-or-notify step after the lock block; `RetryXorNotify` and `RetryAndNotifyExclusive` state that exactly one of the two happens, decided by the address. |
| DepositAddress.Rescue | app/workers/amqp/deposit_coin_address.rb:45-48 | The top-level rescue; `GenerationFailureIsContained` states its three cases: non-standard exceptions escape, connection errors are re-raised, others are reported. |
| DepositAddress.Generate | app/workers/amqp/deposit_coin_address.rb:29-33 | Generation succeeds exactly when the service returns a result whose details are not nil. A raised error is passed on unchanged, and nil details give the `NoMethodError` of `nil.merge`. On success the row takes the result's address and secret and keeps its currency. |
| DepositAddress.Assign | app/workers/amqp/deposit_coin_address.rb:7-49 | One delivery keeps the store's referential integrity. It never changes accounts, currencies, wallets or the set of payment-address rows. It changes no row other than the payload account's, and never a row whose address is present. A re-raised exception is a connection error or not a `StandardError`, and is never reported. |
| DepositAddress.Run | app/workers/amqp/deposit_coin_address.rb:7-49 | The same invariants and frame hold over any sequence of deliveries. |
| DepositAddress.MissingAccountIsNoOp | app/workers/amqp/deposit_coin_address.rb:10-11 | A missing or unknown `account_id` leaves the whole state unchanged and raises nothing. |
| DepositAddress.NonCoinIsNoOp | app/workers/amqp/deposit_coin_address.rb:12 | For a non-coin account the whole state is unchanged: no wallet call, no write, no retry, no notification. |
| DepositAddress.MissingWalletOnlyWarns | app/workers/amqp/deposit_coin_address.rb:14-21 | Without an active deposit wallet, the only effect is one warning with the logged text. |
| DepositAddress.PresentAddressIsIdempotent | app/workers/amqp/deposit_coin_address.rb:25-39 | When the address is already present, redelivery makes no wallet call and writes nothing. Its only effect is to publish the notification again. |
| DepositAddress.GenerationPersistsResult | app/workers/amqp/deposit_coin_address.rb:29-33 | After a successful generation, the address and secret are the result's. Every old details key keeps its old value, and every new result key is added; missing result details count as empty. The wallet service was called once, with the account's wallet. |
| DepositAddress.RetryXorNotify | app/workers/amqp/deposit_coin_address.rb:36-39 | When the lock block does not raise, exactly one thing follows, decided by the stored address. A blank address gives a retry and no notification. A present address gives a notification and no retry. |
| DepositAddress.RetryAndNotifyExclusive | app/workers/amqp/deposit_coin_address.rb:36-59 | On every delivery a retry and a notification never both happen. A retry is for the payload account, whose address is blank. A notification goes to the `private` channel with the member's uid, event `deposit_address`, action `create`, the currency code and the stored present address. |
| DepositAddress.GenerationFailureIsContained | app/workers/amqp/deposit_coin_address.rb:29-48 | When generation fails, no row changes and there is no retry and no notification. An exception that is not a `StandardError` escapes unreported. A `StandardError` is re-raised exactly when it is a connection error, and reported otherwise. |
| DepositAddress.StepCounts | app/workers/amqp/deposit_coin_address.rb:25-34 | In one delivery, a present address draws no wallet call. The count of successful generations rises by one exactly when the address goes from blank to present. |
| DepositAddress.PresentAddressNeverRegenerated | app/workers/amqp/deposit_coin_address.rb:25-34 | Once an address is present, it never changes and no later delivery calls the wallet service for the account. |
| DepositAddress.AtMostOneGeneration | app/workers/amqp/deposit_coin_address.rb:25-34 | Over any sequence of deliveries an account gets at most one successful generation. It gets exactly one when its address went from blank to present. |
| DepositAddress.RetryConvergence | app/workers/amqp/deposit_coin_address.rb:36-48 | A wallet failure followed by a successful redelivery leaves the address stored, one notification published and no retry enqueued. |
| DepositWorker.Process | app/workers/amqp/deposit_coin_address.rb:7-59 | The in-place run of `process` keeps the store valid. Its new store and its re-raised exception are exactly those `Assign` gives, so every `DepositAddress` lemma holds of it. |
| DepositWorker.Store.CallWalletService | app/workers/amqp/deposit_coin_address.rb:29 | It logs one wallet-service call and changes nothing else. |
| DepositWorker.Store.UpdatePaymentAddress | app/workers/amqp/deposit_coin_address.rb:31-33 | It replaces one payment-address row and changes nothing else. |
| DepositWorker.Store.EnqueueAddressGeneration | app/workers/amqp/deposit_coin_address.rb:37 | It appends one retry request and changes nothing else. |
| DepositWorker.Store.Publish | app/workers/amqp/deposit_coin_address.rb:53-59 | It appends one notification and changes nothing else. |
| DepositWorker.Store.Warn | app/workers/amqp/deposit_coin_address.rb:16-19 | It appends one warning and changes nothing else. |
| DepositWorker.Store.ReportException | app/workers/amqp/deposit_coin_address.rb:48 | It appends one reported exception and changes nothing else. |
| CurrencyParams.Coerce | app/api/v2/admin/currencies.rb:12-83 | The `type:` coercion: a coerced value has the declared type, and a value already of that type is left as it is. It fails exactly on a value of another type, except that an integer is coerced to a BigDecimal. |
| CurrencyParams.Accept | app/api/v2/admin/currencies.rb:12-83 | One supplied value against its rule. An accepted value satisfies the `values:` check and has the declared type; an untyped value is accepted unchanged exactly when it passes the check. A rejection names the parameter. |
| CurrencyParams.ErrorsOf | app/api/v2/admin/currencies.rb:12-83 | One parameter draws at most one error, about itself. It draws none exactly when a supplied value is accepted or a missing one is optional. |
| CurrencyParams.Errors | app/api/v2/admin/currencies.rb:85-95 | The request's errors: at most one per declared parameter, each naming a declared parameter. `ErrorsCollected` states that an error appears exactly when some parameter draws it. |
| CurrencyParams.Declared | app/api/v2/admin/currencies.rb:152 | `declared(params)`: it holds only declared names, and with `include_missing: false` only supplied ones. `DeclaredHolds` states the value of each name. |
| CurrencyParams.CreateRules | app/api/v2/admin/currencies.rb:133-148 | The create block: the table, `code`, `symbol`, `type`, then `blockchain_key`, required and checked only for a coin type. `CreateRulesDistinct` states that no name repeats. |
| CurrencyParams.UpdateRules | app/api/v2/admin/currencies.rb:166-176 | The update block: the table without defaults, the checked `code`, and optional `symbol` and `blockchain_key`. `UpdateRulesDistinct` states that no name repeats. |
| CurrencyParams.ValidateCreate | app/api/v2/admin/currencies.rb:133-148 | Validation of a create; its lemmas are the `Create…` rows below, `NegativeAmountRejected` and `BadSubunitsRejected`. |
| CurrencyParams.ValidateUpdate | app/api/v2/admin/currencies.rb:166-176 | Validation of an update; its lemmas are `UpdateAppliesNoDefaults`, `UpdateRequiresExistingCode`, `NegativeAmountRejected` and `BadSubunitsRejected`. |
| CurrencyParams.StripDefaultsKeepsErrors | app/api/v2/admin/currencies.rb:91-95 | Removing the defaults leaves a request's errors unchanged. |
| CurrencyParams.StripDefaultsKeepsDeclared | app/api/v2/admin/currencies.rb:91-95 | Removing the defaults leaves `declared(params, include_missing: false)` unchanged. |
| CurrencyParams.StripDefaultsKeepsValidation | app/api/v2/admin/currencies.rb:91-95 | Removing the defaults changes neither a request's errors nor what `declared(params, include_missing: false)` holds. |
| CurrencyParams.ErrorsCollected | app/api/v2/admin/currencies.rb:85-95 | An error is reported exactly when some declared parameter draws it. |
| CurrencyParams.ErrorsEmpty | app/api/v2/admin/currencies.rb:85-95 | An accepted request has no error from any parameter. |
| CurrencyParams.DeclaredHolds | app/api/v2/admin/currencies.rb:85-95 | `declared` holds a parameter exactly when it was supplied and valid, or was missing and missing ones are included. It then holds the coerced value, or the default. |
| CurrencyParams.DeclaredOnlySupplied | app/api/v2/admin/currencies.rb:182 | With `include_missing: false` only supplied parameters are declared, each with a non-nil value. |
| CurrencyParams.TableNames | app/api/v2/admin/currencies.rb:12-83 | The table's names are distinct, and distinct from `code`, `symbol`, `type` and `blockchain_key`. |
| CurrencyParams.CreateRulesDistinct | app/api/v2/admin/currencies.rb:133-148 | The create block declares no name twice. |
| CurrencyParams.UpdateRulesDistinct | app/api/v2/admin/currencies.rb:166-176 | The update block declares no name twice. |
| CurrencyParams.AmountAccepted | app/api/v2/admin/currencies.rb:14-55 | An amount is accepted exactly when it is a non-negative number, and is declared as that decimal. A non-number draws the amount's type message and a negative number its values message. |
| CurrencyParams.SubunitsAccepted | app/api/v2/admin/currencies.rb:71-76 | `subunits` is accepted exactly as an integer in 0..18, and is unchanged by acceptance. |
| CurrencyParams.NegativeAmountRejected | app/api/v2/admin/currencies.rb:14-55 | A negative value of any of the seven amounts fails both create and update with that amount's message. |
| CurrencyParams.BadSubunitsRejected | app/api/v2/admin/currencies.rb:71-76 | A `subunits` that is not an integer in 0..18 fails both create and update. An integer outside the range draws `invalid_subunits`, and anything else draws `non_integer_subunits`. |
| CurrencyParams.CreateAppliesDefaults | app/api/v2/admin/currencies.rb:85-89 | On create every optional parameter is declared: the coerced value when supplied, its default otherwise. |
| CurrencyParams.CreateDefaultValues | app/api/v2/admin/currencies.rb:12-83 | Omitted fields take the table's defaults on create. Amounts are 0.0, `position` is 0, `options` is 0.0, `enabled` is true, `subunits` is 0 and `precision` is 8. `name` and `icon_url` are nil. |
| CurrencyParams.CreateSubunitsInRange | app/api/v2/admin/currencies.rb:71-76 | An accepted create declares `subunits` as an integer in 0..18. |
| CurrencyParams.UpdateAppliesNoDefaults | app/api/v2/admin/currencies.rb:91-95 | An accepted update declares only supplied parameters, so an omitted one cannot overwrite anything. Every supplied table parameter is declared with its coerced value. |
| CurrencyParams.CreateTypeDefaultsToCoin | app/api/v2/admin/currencies.rb:139-147 | A create without `type` declares `coin`, and is accepted only with an existing `blockchain_key`. |
| CurrencyParams.CoinRequiresBlockchainKey | app/api/v2/admin/currencies.rb:143-147 | A coin create is rejected when `blockchain_key` is missing (a missing error) or unknown (`blockchain_key_doesnt_exist`). |
| CurrencyParams.CreateTypeMustBeKnown | app/api/v2/admin/currencies.rb:139-142 | A `type` that is not a currency type fails the create with `invalid_type`. |
| CurrencyParams.NonCoinBlockchainKeyUnchecked | app/api/v2/admin/currencies.rb:143-152 | When the type is not `coin`, `blockchain_key` draws no error. An accepted create still declares it, with the supplied value or nil. |
| CurrencyParams.CreateRequiresCodeAndSymbol | app/api/v2/admin/currencies.rb:135-138 | A create without `code` or `symbol` fails with a missing error for each one not supplied. |
| CurrencyParams.CreateDeclaresCode | app/api/v2/admin/currencies.rb:135-136 | An accepted create had a `code` and declares it unchanged. |
| CurrencyParams.UpdateRequiresExistingCode | app/api/v2/admin/currencies.rb:168-170 | An update is accepted only with the code of a stored currency, which it declares. A missing code draws a missing error, and an unknown one `doesnt_exist`. |
| CurrencyAdmin.CreateResponds | app/api/v2/admin/currencies.rb:149-161 | Create answers 201 exactly when validation and save both succeed and the code is not yet stored. The currency is then stored under that new code with all the declared attributes. Otherwise it answers 422 with the validation errors or the model's messages, and stores nothing. |
| CurrencyAdmin.CreateKeepsStoredCurrencies | app/api/v2/admin/currencies.rb:152-154 | Create never replaces or drops a stored currency. The table grows by exactly one entry when it answers 201, and otherwise stays the same size. |
| CurrencyAdmin.CreateStep | app/api/v2/admin/currencies.rb:149-161 | The create body over the stored currencies; `CreateResponds`, `CreateKeepsStoredCurrencies` and `CreateAssignsSubunits` state what it answers and stores. |
| CurrencyAdmin.UpdateStep | app/api/v2/admin/currencies.rb:177-188 | The update body over the stored currencies; `UpdateResponds`, `UpdateAssignsSubunits` and `UpdateOfUnknownCodeRejected` state what it answers and stores. |
| CurrencyAdmin.CreateAssignsSubunits | app/api/v2/admin/currencies.rb:152-153 | The created currency's `subunits` is the supplied integer, or 0 when omitted, and always lies in 0..18. |
| CurrencyAdmin.UpdateResponds | app/api/v2/admin/currencies.rb:177-188 | Update answers 201 exactly when validation and update both succeed, and then stores the changed currency under its code. That currency takes every supplied parameter and keeps every attribute that was not supplied. Otherwise it answers 422 and nothing changes. |
| CurrencyAdmin.UpdateAssignsSubunits | app/api/v2/admin/currencies.rb:181-182 | Update sets `subunits` to the supplied integer when it is supplied, and otherwise keeps the stored one. |
| CurrencyAdmin.UpdateOfUnknownCodeRejected | app/api/v2/admin/currencies.rb:168-170 | An update naming no stored currency answers 422 with the code error and changes nothing. |
| CurrencyAdmin.CurrencyTable.Create | app/api/v2/admin/currencies.rb:149-161 | The in-place create leaves the table and the response exactly as `CreateStep` computes them. |
| CurrencyAdmin.CurrencyTable.Update | app/api/v2/admin/currencies.rb:177-188 | The in-place update leaves the table and the response exactly as `UpdateStep` computes them. |

## Left out

- The row lock (`pa.with_lock`) is modelled as one atomic step. Two concurrent deliveries are two consecutive deliveries in `Run`; real interleaving and other database writers are not modelled.
- Database failures other than those of the wallet call (`Account.find_by_id`, `pa.update!`, the lock itself) are not modelled. Only the wallet service's result can make a delivery fail.
- The broker plumbing (`Base`, `symbolize_keys!`, acknowledgement and redelivery) is left out. A re-raised exception is returned, and a redelivery is a later element of `Run`.
- `Rails.logger`, the `Peatio::Ranger::Events.publish` transport and `report_exception` are left out. Each appears only as an appended log entry.
- `WalletService#create_address!` is a parameter (`WalletOutcome`), and its internals are not part of this model. `enqueue_address_generation` appends a retry request for the account.
- `is_db_connection_error?` is an uninterpreted predicate on the exception.
- `Blank` treats only ASCII whitespace as blank; Ruby's `blank?` also counts Unicode spaces.
- `Account#payment_address` and the `Currency`, `Wallet` and `Blockchain` models are not part of this model. Each coin account is assumed to have its payment-address row, and `Currency.types` is taken to be fiat and coin.
- Grape's coercion of request text is not modelled: values arrive already typed. An integer is accepted where a BigDecimal is declared. Untyped parameters are not converted to strings, and the JSON `options` value is not parsed.
- Each parameter draws at most one error: a failed coercion skips its value check. The exact text of Grape's error response is not modelled; a validation failure answers 422 with the list of errors.
- ActiveRecord validations are folded into the `saveOk` and `updateOk` parameters, with the messages they report. A create whose code is already stored fails regardless of `saveOk`.
- `Delivery.payload` is an integer account id. `Account.find_by_id` would also resolve an id given as a numeric string, which the model does not represent.
- The list and show endpoints, `authorize!`, the Ransack search and pagination, entity presentation and the documentation lambdas are left out.
