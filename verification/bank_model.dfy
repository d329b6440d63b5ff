/**
 * The ledger of the bank service as values: the customer table, the set of
 * names with an active session, and the three request handlers (login,
 * payment, logout) as functions from a state to the next state and the
 * outcome reported to the caller. The class `Bank.Ledger` is proved against
 * these functions.
 */
module BankModel {

  datatype Option<+T> = None | Some(value: T)

  /** A registered customer: the record the customer table points to. */
  datatype Customer = Customer(username: string, balance: int)

  /** What a handler reports; `Ok` is the only outcome that changes state. */
  datatype Status =
    | Ok
    | NoSuchCustomer        // login of an unknown name
    | NotLoggedIn           // payment or logout without a session
    | InvalidCustomers      // payment naming an unknown sender or receiver
    | InvalidAmount         // payment whose amount does not parse
    | InsufficientBalance   // payment larger than the sender's balance

  /** The two global tables: customers by name, and names with a session. */
  datatype State = State(customers: map<string, Customer>, loggedIn: set<string>)

  /** The state a handler leaves behind, with the outcome it reports. */
  datatype Step = Step(state: State, status: Status)

  /** The roster the service starts with: alice with 1000, bob with 500, nobody logged in. */
  function Seed(): (s: State)
    ensures s.customers.Keys == {"alice", "bob"} && s.loggedIn == {}
    ensures s.customers["alice"].balance == 1000 && s.customers["bob"].balance == 500
    ensures Valid(s)
  {
    State(map["alice" := Customer("alice", 1000), "bob" := Customer("bob", 500)], {})
  }

  /**
   * The invariant the handlers keep: every record is filed under its own
   * username, and only customers hold a session.
   */
  ghost predicate Valid(s: State) {
    && (forall name | name in s.customers :: s.customers[name].username == name)
    && s.loggedIn <= s.customers.Keys
  }

  ghost predicate NonNegative(customers: map<string, Customer>) {
    forall name | name in customers :: customers[name].balance >= 0
  }

  // ---------------------------------------------------------------------------
  // Handlers
  // ---------------------------------------------------------------------------

  /** login: a known name gains a session (again, if it had one); anything else is refused. */
  function Login(s: State, username: string): (r: Step)
    ensures r.status == Ok <==> username in s.customers
    ensures r.status != Ok ==> r.status == NoSuchCustomer && r.state == s
    ensures r.state.customers == s.customers
    ensures username in s.customers ==> r.state.loggedIn == s.loggedIn + {username}
  {
    if username in s.customers then
      Step(s.(loggedIn := s.loggedIn + {username}), Ok)
    else
      Step(s, NoSuchCustomer)
  }

  /**
   * payment: four checks in a fixed order (session of the sender, existence
   * of both customers, a parsed amount, enough balance), then the sender's
   * record is debited and the receiver's record, read afresh, is credited.
   * When sender and receiver are the same name they are the same record, so
   * the credit sees the debit and the two cancel.
   */
  function Payment(s: State, from: string, to: string, amount: Option<int>): (r: Step)
    // which outcome is reported: each check applies only when the earlier ones passed
    ensures r.status == NotLoggedIn <==> from !in s.loggedIn
    ensures r.status == InvalidCustomers <==>
              from in s.loggedIn && (from !in s.customers || to !in s.customers)
    ensures r.status == InvalidAmount <==>
              from in s.loggedIn && from in s.customers && to in s.customers && amount.None?
    ensures r.status == InsufficientBalance <==>
              && from in s.loggedIn && from in s.customers && to in s.customers && amount.Some?
              && s.customers[from].balance < amount.value
    ensures r.status == Ok <==>
              && from in s.loggedIn && from in s.customers && to in s.customers && amount.Some?
              && s.customers[from].balance >= amount.value
    // a refused payment changes nothing
    ensures r.status != Ok ==> r.state == s
    // a successful payment moves the amount between the two records and nothing else
    ensures r.status == Ok ==>
              && r.state.loggedIn == s.loggedIn
              && r.state.customers.Keys == s.customers.Keys
              && (forall name | name in s.customers ::
                    r.state.customers[name].username == s.customers[name].username)
              && (forall name | name in s.customers && name != from && name != to ::
                    r.state.customers[name] == s.customers[name])
              && (from != to ==>
                    && r.state.customers[from].balance == s.customers[from].balance - amount.value
                    && r.state.customers[to].balance == s.customers[to].balance + amount.value)
              && (from == to ==> r.state == s)
  {
    if from !in s.loggedIn then
      Step(s, NotLoggedIn)
    else if from !in s.customers || to !in s.customers then
      Step(s, InvalidCustomers)
    else if amount.None? then
      Step(s, InvalidAmount)
    else if s.customers[from].balance < amount.value then
      Step(s, InsufficientBalance)
    else
      var debited := Debit(s.customers, from, amount.value);
      var credited := Credit(debited, to, amount.value);
      Step(s.(customers := credited), Ok)
  }

  /** The sender's record after `fromCustomer.Balance -= amount`. */
  function Debit(customers: map<string, Customer>, name: string, amount: int): (r: map<string, Customer>)
    requires name in customers
    ensures r.Keys == customers.Keys
    ensures r[name].username == customers[name].username
    ensures r[name].balance == customers[name].balance - amount
    ensures forall other | other in customers && other != name :: r[other] == customers[other]
  {
    customers[name := customers[name].(balance := customers[name].balance - amount)]
  }

  /** The receiver's record after `toCustomer.Balance += amount`. */
  function Credit(customers: map<string, Customer>, name: string, amount: int): (r: map<string, Customer>)
    requires name in customers
    ensures r.Keys == customers.Keys
    ensures r[name].username == customers[name].username
    ensures r[name].balance == customers[name].balance + amount
    ensures forall other | other in customers && other != name :: r[other] == customers[other]
  {
    customers[name := customers[name].(balance := customers[name].balance + amount)]
  }

  /** logout: the session of a logged-in name ends; without a session the request is refused. */
  function Logout(s: State, username: string): (r: Step)
    ensures r.status == Ok <==> username in s.loggedIn
    ensures r.status != Ok ==> r.status == NotLoggedIn && r.state == s
    ensures r.state.customers == s.customers
    ensures r.state.loggedIn == s.loggedIn - {username}
  {
    if username in s.loggedIn then
      Step(s.(loggedIn := s.loggedIn - {username}), Ok)
    else
      Step(s, NotLoggedIn)
  }

  // ---------------------------------------------------------------------------
  // Sessions
  // ---------------------------------------------------------------------------

  /** Logging in twice leaves the same state, and reports the same outcome, as once. */
  lemma LoginIdempotent(s: State, username: string)
    ensures Login(Login(s, username).state, username) == Login(s, username)
  {
  }

  /** A login followed by a logout of a customer who had no session restores the state. */
  lemma LogoutUndoesLogin(s: State, username: string)
    requires username in s.customers && username !in s.loggedIn
    ensures Login(s, username).status == Ok
    ensures Logout(Login(s, username).state, username) == Step(s, Ok)
  {
  }

  /** A logout followed by a login of the same name restores the state. */
  lemma LoginUndoesLogout(s: State, username: string)
    requires Valid(s) && username in s.loggedIn
    ensures Login(Logout(s, username).state, username) == Step(s, Ok)
  {
  }

  /** Login keeps the invariant: the name it adds to the sessions is a customer. */
  lemma LoginPreservesValid(s: State, username: string)
    requires Valid(s)
    ensures Valid(Login(s, username).state)
  {
  }

  /** Payment keeps the invariant: it changes balances only, never a username, the roster or a session. */
  lemma PaymentPreservesValid(s: State, from: string, to: string, amount: Option<int>)
    requires Valid(s)
    ensures Valid(Payment(s, from, to, amount).state)
  {
  }

  /** Logout keeps the invariant: it only removes a session. */
  lemma LogoutPreservesValid(s: State, username: string)
    requires Valid(s)
    ensures Valid(Logout(s, username).state)
  {
  }

  /**
   * In a valid state a logged-in sender is a customer, so a payment refused
   * for invalid customers always names an unknown receiver.
   */
  lemma InvalidCustomersMeansUnknownReceiver(s: State, from: string, to: string, amount: Option<int>)
    requires Valid(s)
    ensures Payment(s, from, to, amount).status == InvalidCustomers <==>
              from in s.loggedIn && to !in s.customers
  {
  }

  // ---------------------------------------------------------------------------
  // Balances
  // ---------------------------------------------------------------------------

  /** The sum of all balances. */
  ghost function Total(customers: map<string, Customer>): int
    decreases |customers|
  {
    if customers == map[] then 0
    else
      var name :| name in customers;
      customers[name].balance + Total(customers - {name})
  }

  /** The sum splits off any one record, whichever record the definition happens to pick first. */
  lemma {:induction false} TotalRemove(customers: map<string, Customer>, name: string)
    requires name in customers
    ensures Total(customers) == customers[name].balance + Total(customers - {name})
    decreases |customers|
  {
    var first :| first in customers && Total(customers) == customers[first].balance + Total(customers - {first});
    if first != name {
      var rest := customers - {first} - {name};
      assert customers - {name} - {first} == rest;
      assert |customers - {first}| < |customers|;
      TotalRemove(customers - {first}, name);
      assert |customers - {name}| < |customers|;
      TotalRemove(customers - {name}, first);
    }
  }

  /** Replacing one record changes the sum by exactly the change in that record's balance. */
  lemma {:induction false} TotalUpdate(customers: map<string, Customer>, name: string, c: Customer)
    requires name in customers
    ensures Total(customers[name := c]) == Total(customers) - customers[name].balance + c.balance
  {
    var updated := customers[name := c];
    TotalRemove(customers, name);
    TotalRemove(updated, name);
    assert updated - {name} == customers - {name};
  }

  /** A payment, successful or not, leaves the sum of all balances unchanged. */
  lemma PaymentConservesTotal(s: State, from: string, to: string, amount: Option<int>)
    ensures Total(Payment(s, from, to, amount).state.customers) == Total(s.customers)
  {
    if Payment(s, from, to, amount).status == Ok {
      var a := amount.value;
      var debited := Debit(s.customers, from, a);
      TotalUpdate(s.customers, from, debited[from]);
      assert s.customers[from := debited[from]] == debited;
      var credited := Credit(debited, to, a);
      TotalUpdate(debited, to, credited[to]);
      assert debited[to := credited[to]] == credited;
    }
  }

  /**
   * After a successful payment between two different customers the sender's
   * balance is not negative, since the payment required balance >= amount.
   * A payment to oneself leaves the balance as it was, which may already be
   * negative (see `SelfPaymentKeepsNegativeBalance`), hence `from != to`.
   */
  lemma PaymentKeepsSenderSolvent(s: State, from: string, to: string, amount: Option<int>)
    requires from != to
    requires Payment(s, from, to, amount).status == Ok
    ensures Payment(s, from, to, amount).state.customers[from].balance >= 0
  {
  }

  /** With an amount that is not negative, a payment never drives any balance below zero. */
  lemma PaymentKeepsBalancesNonNegative(s: State, from: string, to: string, amount: Option<int>)
    requires NonNegative(s.customers)
    requires amount.Some? ==> amount.value >= 0
    ensures NonNegative(Payment(s, from, to, amount).state.customers)
  {
  }

  /**
   * The amount is not required to be positive: from the seed state, alice
   * paying bob -600 succeeds, raises alice to 1600 and leaves bob at -100.
   */
  lemma NegativeAmountOverdrawsReceiver()
    ensures var s := Login(Seed(), "alice").state;
            var r := Payment(s, "alice", "bob", Some(-600));
            && r.status == Ok
            && r.state.customers["alice"].balance == 1600
            && r.state.customers["bob"].balance == -100
  {
  }

  /**
   * Why `PaymentKeepsSenderSolvent` needs two different customers: after
   * alice pays bob -600, bob (now at -100) logs in and pays himself -1000.
   * The balance check -100 < -1000 fails, so the payment succeeds, and bob,
   * its sender, is left at -100.
   */
  lemma SelfPaymentKeepsNegativeBalance()
    ensures var s1 := Login(Seed(), "alice").state;
            var s2 := Payment(s1, "alice", "bob", Some(-600)).state;
            var s3 := Login(s2, "bob").state;
            var r := Payment(s3, "bob", "bob", Some(-1000));
            && r.status == Ok
            && r.state.customers["bob"].balance == -100
  {
  }

  // ---------------------------------------------------------------------------
  // Serialized runs
  // ---------------------------------------------------------------------------

  /** One request to the service, as the three routes receive it. */
  datatype Request =
    | LoginRequest(username: string)
    | PaymentRequest(from: string, to: string, amount: Option<int>)
    | LogoutRequest(username: string)

  /** One handler call, as one atomic step. */
  function Handle(s: State, req: Request): (r: Step)
    ensures r.status != Ok ==> r.state == s
    ensures r.state.customers.Keys == s.customers.Keys
  {
    match req
    case LoginRequest(username) => Login(s, username)
    case PaymentRequest(from, to, amount) => Payment(s, from, to, amount)
    case LogoutRequest(username) => Logout(s, username)
  }

  /**
   * The requests applied one after another: the lock taken by every handler
   * makes any concurrent execution equal to such a sequence.
   */
  function Run(s: State, reqs: seq<Request>): (r: State)
    // no run adds or removes a customer
    ensures r.customers.Keys == s.customers.Keys
    decreases |reqs|
  {
    if reqs == [] then s else Run(Handle(s, reqs[0]).state, reqs[1..])
  }

  /** Any run keeps the invariant. */
  lemma {:induction false} RunPreservesValid(s: State, reqs: seq<Request>)
    requires Valid(s)
    ensures Valid(Run(s, reqs))
    decreases |reqs|
  {
    if reqs != [] {
      var req := reqs[0];
      match req {
        case LoginRequest(u) => LoginPreservesValid(s, u);
        case PaymentRequest(f, t, a) => PaymentPreservesValid(s, f, t, a);
        case LogoutRequest(u) => LogoutPreservesValid(s, u);
      }
      RunPreservesValid(Handle(s, req).state, reqs[1..]);
    }
  }

  /** Any run, in any order of requests, conserves the sum of all balances. */
  lemma {:induction false} RunConservesTotal(s: State, reqs: seq<Request>)
    ensures Total(Run(s, reqs).customers) == Total(s.customers)
    decreases |reqs|
  {
    if reqs != [] {
      var req := reqs[0];
      if req.PaymentRequest? {
        PaymentConservesTotal(s, req.from, req.to, req.amount);
      }
      RunConservesTotal(Handle(s, req).state, reqs[1..]);
    }
  }

  /** A run whose payment amounts are all non-negative keeps every balance non-negative. */
  lemma {:induction false} RunKeepsBalancesNonNegative(s: State, reqs: seq<Request>)
    requires NonNegative(s.customers)
    requires forall i | 0 <= i < |reqs| ::
               reqs[i].PaymentRequest? && reqs[i].amount.Some? ==> reqs[i].amount.value >= 0
    ensures NonNegative(Run(s, reqs).customers)
    decreases |reqs|
  {
    if reqs != [] {
      var req := reqs[0];
      if req.PaymentRequest? {
        PaymentKeepsBalancesNonNegative(s, req.from, req.to, req.amount);
      }
      assert forall i | 0 <= i < |reqs[1..]| :: reqs[1..][i] == reqs[i + 1];
      RunKeepsBalancesNonNegative(Handle(s, req).state, reqs[1..]);
    }
  }
}
