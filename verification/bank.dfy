/**
 * The bank service's global state as an object: the customer table and the
 * session table are fields that the three handlers update in place, each
 * handler one atomic step (the service's single lock serializes them). Every
 * handler is proved to move the object exactly as the matching function of
 * `BankModel` moves a state value.
 */
module Bank {
  import opened BankModel

  class Ledger {
    var customers: map<string, Customer>
    var loggedInUsers: set<string>

    /** The ledger's current state as a value. */
    function Snapshot(): (s: State)
      reads this
      ensures s.customers == customers && s.loggedIn == loggedInUsers
    {
      State(customers, loggedInUsers)
    }

    /** The service at start-up: alice with 1000, bob with 500, no sessions. */
    constructor Seeded()
      ensures Snapshot() == Seed()
      ensures Valid(Snapshot())
    {
      customers := map["alice" := Customer("alice", 1000), "bob" := Customer("bob", 500)];
      loggedInUsers := {};
    }

    method Login(username: string) returns (status: Status)
      modifies this
      ensures Step(Snapshot(), status) == BankModel.Login(old(Snapshot()), username)
      ensures Valid(old(Snapshot())) ==> Valid(Snapshot())
      ensures status == Ok <==> username in customers
      ensures customers == old(customers)
      ensures status == Ok ==> loggedInUsers == old(loggedInUsers) + {username}
      ensures status != Ok ==> status == NoSuchCustomer && loggedInUsers == old(loggedInUsers)
    {
      if username in customers {
        loggedInUsers := loggedInUsers + {username};
        status := Ok;
      } else {
        status := NoSuchCustomer;
      }
    }

    method Payment(from: string, to: string, amount: Option<int>) returns (status: Status)
      modifies this
      ensures Step(Snapshot(), status) == BankModel.Payment(old(Snapshot()), from, to, amount)
      ensures Valid(old(Snapshot())) ==> Valid(Snapshot())
      ensures status != Ok ==> customers == old(customers) && loggedInUsers == old(loggedInUsers)
      ensures status == Ok ==> Total(customers) == Total(old(customers))
    {
      if from !in loggedInUsers {
        return NotLoggedIn;
      }
      if from !in customers || to !in customers {
        return InvalidCustomers;
      }
      if amount.None? {
        return InvalidAmount;
      }
      var transferAmount := amount.value;
      if customers[from].balance < transferAmount {
        return InsufficientBalance;
      }
      // Both updates read the table as it is at that point, so a payment to
      // oneself credits the record it has just debited.
      customers := customers[from := customers[from].(balance := customers[from].balance - transferAmount)];
      customers := customers[to := customers[to].(balance := customers[to].balance + transferAmount)];
      status := Ok;
      assert Step(Snapshot(), status) == BankModel.Payment(old(Snapshot()), from, to, amount);
      assert Total(customers) == Total(old(customers)) by {
        PaymentConservesTotal(old(Snapshot()), from, to, amount);
      }
      assert Valid(old(Snapshot())) ==> Valid(Snapshot()) by {
        if Valid(old(Snapshot())) {
          PaymentPreservesValid(old(Snapshot()), from, to, amount);
        }
      }
    }

    method Logout(username: string) returns (status: Status)
      modifies this
      ensures Step(Snapshot(), status) == BankModel.Logout(old(Snapshot()), username)
      ensures Valid(old(Snapshot())) ==> Valid(Snapshot())
      ensures status == Ok <==> username in old(loggedInUsers)
      ensures customers == old(customers)
      ensures loggedInUsers == old(loggedInUsers) - {username}
      ensures status != Ok ==> status == NotLoggedIn
    {
      if username in loggedInUsers {
        loggedInUsers := loggedInUsers - {username};
        status := Ok;
      } else {
        status := NotLoggedIn;
      }
    }
  }

  /**
   * The start-up roster driven through one session: alice logs in, pays bob
   * 200, fails to pay 9000, logs out, and is then refused a payment of 10;
   * carol, who is not a customer, cannot log in.
   */
  method SeedScenario() returns (statuses: seq<Status>, alice: int, bob: int)
    ensures statuses == [Ok, Ok, InsufficientBalance, Ok, NotLoggedIn, NoSuchCustomer]
    ensures alice == 800 && bob == 700
  {
    var ledger := new Ledger.Seeded();
    var s1 := ledger.Login("alice");
    var s2 := ledger.Payment("alice", "bob", Some(200));
    var s3 := ledger.Payment("alice", "bob", Some(9000));
    var s4 := ledger.Logout("alice");
    var s5 := ledger.Payment("alice", "bob", Some(10));
    var s6 := ledger.Login("carol");
    statuses := [s1, s2, s3, s4, s5, s6];
    alice := ledger.customers["alice"].balance;
    bob := ledger.customers["bob"].balance;
  }
}
