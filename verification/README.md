# Bank ledger model

A Dafny model of the in-memory ledger behind the `golang-bank-api` service.
The service keeps two global tables: `customers`, from a name to a customer
record holding a balance, and `loggedInUsers`, the names that have an active
session. Three HTTP handlers act on them. Each reads its form values first
and then holds the service's one mutex for all of its work on the two
tables:

- `login` gives a known customer a session and refuses an unknown name;
- `payment` checks, in this order, that the sender is logged in, that both
  customers exist, that the amount parses and that the sender's balance
  covers it; only then does it debit the sender and credit the receiver;
- `logout` ends an existing session and refuses a name without one.

The model has two modules.

- `BankModel` (`bank_model.dfy`) holds the state as a value (`State`), the
  outcome of a handler (`Status`: `Ok`, `NoSuchCustomer`, `NotLoggedIn`,
  `InvalidCustomers`, `InvalidAmount`, `InsufficientBalance`) and one function
  per handler from a state to the next state and its outcome. Its lemmas
  cover idempotent login, login/logout round trips, the invariant the
  handlers keep, and conservation of the sum of all balances (`Total`). They
  also cover the non-negativity of balances, and `Run`, which applies any
  sequence of requests one after another.
- `Bank` (`bank.dfy`) holds the class `Ledger`, whose fields `customers` and
  `loggedInUsers` its methods `Login`, `Payment` and `Logout` update in
  place. Each method is proved to take the object from `old(Snapshot())` to
  exactly the state, and the outcome, that the matching `BankModel` function
  gives. The constructor `Seeded` builds the start-up roster (`alice` with
  1000, `bob` with 500). `SeedScenario` drives it through a login, a payment,
  an overdraft attempt, a logout and a refused payment.

Modelling choices:

- Balances and amounts are integers (minor units), not binary floating point.
- The amount reaches `Payment` already parsed, as `Option<int>`. `None`
  stands for a string that `fmt.Sscanf` with `%f` does not accept.
- The session table is a `set<string>`. The source's `map[string]bool` only
  ever stores `true`, and a missing key reads as `false`.
- The source debits through one pointer and credits through another. When
  `from == to` both point to the same record. The model reproduces this by
  reading the receiver's record after the debit, so a payment to oneself
  leaves the state unchanged.
- Negative amounts are accepted, as in the code. Nothing in `payment` checks
  that the amount is positive, so a negative amount credits the sender and
  debits the receiver, and can leave the receiver's balance negative.
  `NegativeAmountOverdrawsReceiver` exhibits such a payment, and
  `SelfPaymentKeepsNegativeBalance` shows that a payment to oneself can then
  succeed with its sender still negative. Non-negativity is proved only for
  runs whose amounts are not negative.

## Model

| member | source | states |
|---|---|---|
| `BankModel.Seed` | main.go:26-27 | the start-up roster is exactly alice (1000) and bob (500), no one is logged in, and it satisfies the ledger invariant |
| `BankModel.Login` | main.go:49-54 | login succeeds exactly when the name is a customer, and then adds it to the session set; otherwise it reports does-not-exist and changes nothing; balances never change |
| `BankModel.Payment` | main.go:65-95 | the reported outcome is fixed by the four checks in source order (not logged in, invalid customers, invalid amount, insufficient balance, else success), each an if-and-only-if; every refusal leaves the state unchanged; a success debits the sender and credits the receiver by the amount, keeps sessions, roster, usernames and every other record, and has no effect when sender and receiver coincide |
| `BankModel.Debit` | main.go:94 | the sender's balance drops by the amount; every other record and the roster are unchanged |
| `BankModel.Credit` | main.go:95 | the receiver's balance rises by the amount; every other record and the roster are unchanged |
| `BankModel.Logout` | main.go:106-111 | logout succeeds exactly when the name has a session; the session set afterwards is the old one minus that name in both cases; a refusal reports not-logged-in and changes nothing; balances never change |
| `BankModel.LoginIdempotent` | main.go:49-51 | logging in twice gives the same state and outcome as logging in once |
| `BankModel.LogoutUndoesLogin` | main.go:106-108 | login then logout of a customer without a session succeeds and restores the original state |
| `BankModel.LoginUndoesLogout` | main.go:49-51 | in a valid state, logout then login of a logged-in name succeeds and restores the original state |
| `BankModel.LoginPreservesValid` | main.go:49-51 | login keeps the invariant that records are filed under their own username and only customers hold a session |
| `BankModel.PaymentPreservesValid` | main.go:65-95 | payment keeps that invariant: it changes no username, no roster entry and no session |
| `BankModel.LogoutPreservesValid` | main.go:106-108 | logout keeps that invariant: it only removes a session |
| `BankModel.InvalidCustomersMeansUnknownReceiver` | main.go:66-77 | in a valid state, invalid-customers is reported exactly when a logged-in sender names an unknown receiver |
| `BankModel.PaymentConservesTotal` | main.go:94-95 | every payment, successful or refused, leaves the sum of all balances unchanged |
| `BankModel.PaymentKeepsSenderSolvent` | main.go:88-94 | after a successful payment between two different customers, the sender's balance is not negative |
| `BankModel.PaymentKeepsBalancesNonNegative` | main.go:88-95 | if no balance is negative and the amount is not negative, no balance is negative after the payment |
| `BankModel.NegativeAmountOverdrawsReceiver` | main.go:80-95 | from the start-up roster, alice paying bob -600 succeeds and leaves alice at 1600 and bob at -100 |
| `BankModel.SelfPaymentKeepsNegativeBalance` | main.go:88-95 | after that payment, bob logging in and paying himself -1000 succeeds and leaves bob, the sender, at -100: the sender stays non-negative only between two different customers |
| `BankModel.Handle` | main.go:32-38 | one request to any route either succeeds or leaves the state unchanged, and never adds or removes a customer |
| `BankModel.Run` | main.go:29-40 | the requests to the three routes applied one after another, each as one step under the lock (main.go:46-47, 62-63, 103-104); no sequence of requests adds or removes a customer |
| `BankModel.RunPreservesValid` | main.go:43-112 | every sequence of requests from a valid state ends in a valid state |
| `BankModel.RunConservesTotal` | main.go:57-98 | every sequence of requests, in any order, leaves the sum of all balances unchanged |
| `BankModel.RunKeepsBalancesNonNegative` | main.go:80-95 | a sequence of requests whose payment amounts are all non-negative never makes a balance negative |
| `Bank.Ledger.Seeded` | main.go:26-27 | the new ledger holds exactly the start-up roster and satisfies the invariant |
| `Bank.Ledger.Login` | main.go:43-55 | the in-place login moves the object exactly as `BankModel.Login` moves its state and keeps the ledger invariant: a session for a known customer, refusal and no change otherwise, the customer table untouched |
| `Bank.Ledger.Payment` | main.go:57-98 | the in-place payment moves the object exactly as `BankModel.Payment` moves its state and keeps the ledger invariant; a refusal changes neither table and a success keeps the sum of all balances |
| `Bank.Ledger.Logout` | main.go:100-112 | the in-place logout moves the object exactly as `BankModel.Logout` moves its state and keeps the ledger invariant: the name leaves the session table, success exactly when it was there, the customer table untouched |
| `Bank.SeedScenario` | main.go:24-27 | from the start-up roster: login ok, paying 200 ok, paying 9000 refused for insufficient balance, logout ok, paying 10 refused as not logged in, login of carol refused as unknown; final balances alice 800, bob 700 |

## Left out

- Routing and transport: the gin router, `c.PostForm`, `r.Run` and the
  responses built by `c.JSON`. Each handler returns a `Status` value instead
  of an HTTP status code and a JSON body. The model does not include the
  `customer` field that a successful login echoes from the record.
- The mutex. Each handler is modelled as one atomic step, and `BankModel.Run`
  applies requests one after another. This is the behaviour the lock
  guarantees, but interleavings are not modelled.
- `float64` balances and amounts. Both are modelled as unbounded integers, so
  the model has no rounding or precision loss, and no NaN or infinity.
- `fmt.Sscanf` parsing of the amount. It is a library call, and the model
  takes its result as an `Option<int>`. With `%f` it also accepts `NaN`,
  `Inf`, `+Inf` and `-Inf`, which `Option<int>` cannot represent. A NaN
  amount passes the balance check at main.go:88, because every comparison
  with NaN is false, and main.go:94-95 then set both balances to NaN. An
  amount of `-Inf` also passes, leaving the sender at +Inf and the receiver
  at -Inf.
- BankModel.PaymentConservesTotal, BankModel.RunConservesTotal and
  BankModel.PaymentKeepsSenderSolvent hold for integer amounts only. A NaN or
  infinite amount, which the code accepts, breaks conservation of the total,
  and a NaN amount also breaks the sender's non-negativity.
- Pointers in the customer table. Records are values in a map. The only
  place where sharing is visible, a payment to oneself, is reproduced
  explicitly.
