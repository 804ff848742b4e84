/** The server's file code as it is written: loops that read one record at a time with a file position,
    modifiers that run on a local copy, and operations that sequence them. Each method is proved against
    the step machine: a call is its request run alone. Offsets count records. */
module BankServer {
  import opened Records
  import opened Bank
  import opened Sequential
  import opened Directory

  class Server {
    var users: seq<User>
    var accounts: seq<Account>
    var loans: seq<Loan>
    var log: seq<Txn>

    constructor ()
      ensures Now() == INITIAL.tables
    {
      users, accounts, loans, log := [], [], [], [];
    }

    function Now(): Tables
      reads this
    {
      Tables(users, accounts, loans, log)
    }

    // ----- Searches

    method FindAccountOffset(userId: nat) returns (offset: int)
      ensures offset == if FindAccount(accounts, userId) == |accounts| then -1 else FindAccount(accounts, userId)
    {
      var pos := 0;
      offset := -1;
      while pos < |accounts|
        invariant 0 <= pos <= |accounts| && offset == -1
        invariant forall j :: 0 <= j < pos ==> accounts[j].userId != userId
      {
        var tmp := accounts[pos];
        if tmp.userId == userId {
          offset := pos;
          break;
        }
        pos := pos + 1;
      }
      assert offset >= 0 ==> FindAccount(accounts, userId) == offset;
    }

    method FindUserOffset(id: nat) returns (offset: int)
      ensures offset == if FindUser(users, id) == |users| then -1 else FindUser(users, id)
    {
      var pos := 0;
      offset := -1;
      while pos < |users|
        invariant 0 <= pos <= |users| && offset == -1
        invariant forall j :: 0 <= j < pos ==> users[j].id != id
      {
        if users[pos].id == id {
          offset := pos;
          break;
        }
        pos := pos + 1;
      }
      assert offset >= 0 ==> FindUser(users, id) == offset;
    }

    method FindLoanOffset(id: nat) returns (offset: int)
      ensures offset == if FindLoan(loans, id) == |loans| then -1 else FindLoan(loans, id)
    {
      var pos := 0;
      offset := -1;
      while pos < |loans|
        invariant 0 <= pos <= |loans| && offset == -1
        invariant forall j :: 0 <= j < pos ==> loans[j].id != id
      {
        if loans[pos].id == id {
          offset := pos;
          break;
        }
        pos := pos + 1;
      }
      assert offset >= 0 ==> FindLoan(loans, id) == offset;
    }

    method ReadAccount(userId: nat) returns (found: Option<Account>)
      ensures var i := FindAccount(accounts, userId); found == if i < |accounts| then Some(accounts[i]) else None
    {
      var offset := FindAccountOffset(userId);
      found := if offset < 0 then None else Some(accounts[offset]);
    }

    method ReadUser(id: nat) returns (found: Option<User>)
      ensures var i := FindUser(users, id); found == if i < |users| then Some(users[i]) else None
    {
      var offset := FindUserOffset(id);
      found := if offset < 0 then None else Some(users[offset]);
    }

    // ----- Read-modify-write

    method AtomicUpdateAccount(userId: nat, change: AccountChange) returns (ok: bool)
      modifies this`accounts
      ensures ok == UpdateAccount(old(accounts), userId, change).Some?
      ensures accounts == if ok then UpdateAccount(old(accounts), userId, change).value else old(accounts)
    {
      ok := false;
      var offset := FindAccountOffset(userId);
      if offset < 0 {
        return;
      }
      var tmp := accounts[offset];
      match ModifyAccount(tmp, change) {
        case None =>
        case Some(modified) =>
          accounts := accounts[offset := modified];
          ok := true;
      }
    }

    method AtomicUpdateUser(id: nat, change: UserChange) returns (ok: bool)
      modifies this`users
      ensures ok == UpdateUser(old(users), id, change).Some?
      ensures users == if ok then UpdateUser(old(users), id, change).value else old(users)
    {
      ok := false;
      var offset := FindUserOffset(id);
      if offset < 0 {
        return;
      }
      var tmp := users[offset];
      match ModifyUser(tmp, change) {
        case None =>
        case Some(modified) =>
          users := users[offset := modified];
          ok := true;
      }
    }

    method AppendTransaction(from: nat, to: nat, amount: real, note: Note)
      modifies this`log
      ensures log == old(log) + [Txn(|old(log)| + 1, from, to, amount, note)]
    {
      log := log + [Txn(|log| + 1, from, to, amount, note)];
    }

    // ----- Customer operations

    method DepositMoney(user: nat, amount: real) returns (ok: bool)
      modifies this`accounts, this`log
      ensures Now() == RunAlone(old(Now()), Start(Request.DepositMoney(user, amount)))
      ensures var (was, i) := (old(accounts), FindAccount(old(accounts), user));
              && (ok <==> amount > 0.0 && i < |was| && was[i].active)
              && accounts == (if ok then was[i := was[i].(balance := was[i].balance + amount)] else was)
              && log == (if ok then old(log) + [Txn(|old(log)| + 1, 0, user, amount, DepositNote)] else old(log))
    {
      if amount <= 0.0 {
        return false;
      }
      ok := AtomicUpdateAccount(user, Credit(amount));
      if ok {
        ghost var t1 := Now();
        AppendTransaction(0, user, amount, DepositNote);
        assert RunAlone(t1, Append(DepositEntry(user, amount))) == Now();
      }
    }

    method WithdrawMoney(user: nat, amount: real) returns (ok: bool)
      modifies this`accounts, this`log
      ensures Now() == RunAlone(old(Now()), Start(Request.WithdrawMoney(user, amount)))
      ensures var (was, i) := (old(accounts), FindAccount(old(accounts), user));
              && (ok <==> amount > 0.0 && i < |was| && was[i].active && was[i].balance >= amount)
              && accounts == (if ok then was[i := was[i].(balance := was[i].balance - amount)] else was)
              && log == (if ok then old(log) + [Txn(|old(log)| + 1, user, 0, amount, WithdrawNote)] else old(log))
    {
      if amount <= 0.0 {
        return false;
      }
      ok := AtomicUpdateAccount(user, Debit(amount));
      if ok {
        ghost var t1 := Now();
        AppendTransaction(user, 0, amount, WithdrawNote);
        assert RunAlone(t1, Append(WithdrawEntry(user, amount))) == Now();
      }
    }

    /** The second half of a transfer, whatever happened since the withdrawal: deposit and log, or give the
        money back to the sender, which fails when the sender has become inactive. */
    method FinishTransfer(from: nat, to: nat, amount: real) returns (ok: bool)
      modifies this`accounts, this`log
      ensures var i := FindAccount(old(accounts), to); ok <==> i < |old(accounts)| && old(accounts)[i].active
      ensures var credited := UpdateAccount(old(accounts), to, Credit(amount));
              ok ==> Now() == BothLogged(old(Now()), credited.value, from, to, amount)
      ensures var restored := UpdateAccount(old(accounts), from, Credit(amount));
              !ok ==> log == old(log) && accounts == if restored.Some? then restored.value else old(accounts)
      ensures var (was, i) := (old(accounts), FindAccount(old(accounts), from));
              !ok && i < |was| && was[i].active ==> accounts == was[i := was[i].(balance := was[i].balance + amount)]
    {
      ok := AtomicUpdateAccount(to, Credit(amount));
      if !ok {
        var restored := AtomicUpdateAccount(from, Credit(amount));
        return;
      }
      AppendTransaction(from, to, amount, TransferOutNote);
      AppendTransaction(from, to, amount, TransferInNote);
    }

    /** With no other thread in between, a transfer is all or nothing. TransferAloneIsAtomic gives the same result
        for the request run alone and TransferIsExact says what it is, field by field. */
    method TransferFunds(from: nat, to: nat, amount: real) returns (ok: bool)
      modifies this`accounts, this`log
      ensures ok <==> from != to && amount > 0.0 && MayPay(old(accounts), from, amount) && MayReceive(old(accounts), to)
      ensures Now() == if ok then TransferDone(old(Now()), from, to, amount) else old(Now())
    {
      if from == to || amount <= 0.0 {
        return false;
      }
      var recipient := ReadAccount(to);
      if recipient.None? || !recipient.value.active {
        return false;
      }
      if MayPay(accounts, from, amount) {
        DebitThenCredit(accounts, from, to, amount);
      }
      ok := AtomicUpdateAccount(from, Debit(amount));
      if !ok {
        return;
      }
      ok := FinishTransfer(from, to, amount);
    }

    method ApplyLoan(user: nat, amount: real) returns (ok: bool)
      modifies this`loans
      ensures Now() == RunAlone(old(Now()), Start(Request.ApplyLoan(user, amount)))
      ensures ok <==> amount > 0.0
      ensures loans == if ok then old(loans) + [Loan(|old(loans)| + 1, user, amount, Pending, 0)] else old(loans)
    {
      if amount <= 0.0 {
        return false;
      }
      loans := loans + [Loan(|loans| + 1, user, amount, Pending, 0)];
      ok := true;
    }

    // ----- Loan decisions: the modifier runs on a local copy while the record is held

    method ApproveRejectModifier(loan: Loan, action: string, emp: nat) returns (result: Option<Loan>)
      modifies this`accounts, this`log
      ensures var (was, j) := (old(accounts), FindAccount(old(accounts), loan.userId));
              var grants := action == "approve" && loan.status == Assigned && loan.assignedTo == emp
                            && j < |was| && was[j].active;
              if grants then
                && result == Some(loan.(status := Approved))
                && accounts == was[j := was[j].(balance := was[j].balance + loan.amount)]
                && log == old(log) + [Txn(|old(log)| + 1, 0, loan.userId, loan.amount, LoanDepositNote)]
              else
                && accounts == was && log == old(log)
                && result == if action == "reject" && loan.status == Assigned && loan.assignedTo == emp
                             then Some(loan.(status := Rejected)) else None
    {
      result := None;
      if loan.status != Assigned || loan.assignedTo != emp {
        return;
      }
      if action == "approve" {
        var borrower := ReadAccount(loan.userId);
        if borrower.None? || !borrower.value.active {
          return;
        }
        var paid := AtomicUpdateAccount(loan.userId, Credit(loan.amount));
        if !paid {
          return;
        }
        AppendTransaction(0, loan.userId, loan.amount, LoanDepositNote);
        result := Some(loan.(status := Approved));
      } else if action == "reject" {
        result := Some(loan.(status := Rejected));
      }
    }

    method ApproveRejectLoan(loanId: nat, action: string, emp: nat) returns (ok: bool)
      modifies this`loans, this`accounts, this`log
      ensures Now() == RunAlone(old(Now()), Start(Request.DecideLoan(loanId, action, emp)))
      ensures var (were, i) := (old(loans), FindLoan(old(loans), loanId));
              && (ok ==> i < |were| && were[i].status == Assigned && were[i].assignedTo == emp)
              && (action != "approve" ==>
                    && (ok <==> action == "reject" && i < |were| && were[i].status == Assigned
                                && were[i].assignedTo == emp)
                    && accounts == old(accounts) && log == old(log)
                    && loans == if ok then were[i := were[i].(status := Rejected)] else were)
      ensures var (were, i) := (old(loans), FindLoan(old(loans), loanId));
              action == "approve" && i < |were| ==>
                var (was, j) := (old(accounts), FindAccount(old(accounts), were[i].userId));
                && (ok <==> were[i].status == Assigned && were[i].assignedTo == emp && j < |was| && was[j].active)
                && loans == (if ok then were[i := were[i].(status := Approved)] else were)
                && accounts == (if ok then was[j := was[j].(balance := was[j].balance + were[i].amount)] else was)
                && log == if !ok then old(log)
                          else old(log) + [Txn(|old(log)| + 1, 0, were[i].userId, were[i].amount, LoanDepositNote)]
      ensures !ok ==> Now() == old(Now())
    {
      if action == "approve" {
        ApprovalAloneIsAtomic(Now(), loanId, emp);
      } else {
        OtherDecisionAlone(Now(), loanId, action, emp);
      }
      ok := false;
      var offset := FindLoanOffset(loanId);
      if offset < 0 {
        return;
      }
      var tmp := loans[offset];
      var decided := ApproveRejectModifier(tmp, action, emp);
      if decided.Some? {
        loans := loans[offset := decided.value];
        ok := true;
      }
    }

    method AssignLoanToEmployee(loanId: nat, emp: nat) returns (ok: bool)
      modifies this`loans
      ensures var (were, i, e) := (old(loans), FindLoan(old(loans), loanId), FindUser(users, emp));
              && (ok <==> i < |were| && were[i].status == Pending && e < |users| && users[e].role == Employee)
              && loans == if ok then were[i := were[i].(status := Assigned, assignedTo := emp)] else were
      ensures Now() == RunAlone(old(Now()), Start(Request.AssignLoan(loanId, emp)))
    {
      AssignmentAlone(Now(), loanId, emp);
      ok := false;
      var offset := FindLoanOffset(loanId);
      if offset < 0 {
        return;
      }
      var tmp := loans[offset];
      if tmp.status != Pending {
        return;
      }
      var assignee := ReadUser(emp);
      if assignee.None? || assignee.value.role != Employee {
        return;
      }
      loans := loans[offset := tmp.(assignedTo := emp, status := Assigned)];
      ok := true;
    }

    /** login_user: reads users until the first one of that name, and looks up the account of the one found.
        `matches` stands for the comparison of the password with a stored hash. */
    method LoginUser(username: string, matches: string -> bool) returns (result: LoginResult)
      ensures result == LoginOutcome(Now(), username, matches)
      ensures EventsAlone(Now(), Start(Request.Login(username, matches))) == [LoginAnswered(username, result)]
    {
      LoginAlone(Now(), username, matches);
      var pos := 0;
      result := BadCredentials;
      while pos < |users|
        invariant 0 <= pos <= |users| && result == BadCredentials
        invariant forall j :: 0 <= j < pos ==> users[j].username != username
      {
        var user := users[pos];
        if user.username == username {
          assert FindUsername(users, username) == pos;
          if matches(user.passwordHash) {
            var acc := ReadAccount(user.id);
            result := if !user.active || (acc.Some? && !acc.value.active) then Deactivated else Accepted(user);
          }
          return;
        }
        pos := pos + 1;
      }
    }

    method SetAccountStatus(user: nat, status: int) returns (ok: bool)
      modifies this`accounts
      ensures Now() == RunAlone(old(Now()), Start(Request.SetAccountStatus(user, status)))
      ensures var i := FindAccount(old(accounts), user);
              && (ok <==> i < |old(accounts)|)
              && accounts == if ok then old(accounts)[i := old(accounts)[i].(active := status == 1)] else old(accounts)
    {
      ok := AtomicUpdateAccount(user, SetActive(status == 1));
    }

    method ChangeRole(user: nat, roleName: string) returns (ok: bool)
      modifies this`users
      ensures Now() == RunAlone(old(Now()), Start(Request.ChangeRole(user, roleName)))
      ensures var (was, i) := (old(users), FindUser(old(users), user));
              && (ok <==> i < |was| && was[i].role in {Employee, Manager} && roleName in {"employee", "manager"})
              && users == if !ok then was
                          else was[i := was[i].(role := if roleName == "employee" then Employee else Manager)]
    {
      ok := AtomicUpdateUser(user, SetRole(roleName));
    }

    method ChangePassword(user: nat, hash: string) returns (ok: bool)
      modifies this`users
      ensures Now() == RunAlone(old(Now()), Start(Request.ChangePassword(user, hash)))
      ensures var (was, i) := (old(users), FindUser(old(users), user));
              && (ok <==> i < |was|)
              && users == if ok then was[i := was[i].(passwordHash := hash)] else was
    {
      ok := AtomicUpdateUser(user, SetPassword(hash));
    }

    // ----- User creation

    method CheckUniqueness(username: string, email: string, phone: string, self: nat) returns (unique: bool)
      ensures unique <==>
                forall i :: 0 <= i < |users| && users[i].id != self ==>
                  users[i].username != username && users[i].email != email && users[i].phone != phone
    {
      var pos := 0;
      unique := true;
      while pos < |users|
        invariant 0 <= pos <= |users| && unique
        invariant forall j :: 0 <= j < pos && users[j].id != self ==>
                    users[j].username != username && users[j].email != email && users[j].phone != phone
      {
        var user := users[pos];
        pos := pos + 1;
        if user.id == self {
          continue;
        }
        if user.username == username || user.email == email || user.phone == phone {
          unique := false;
          break;
        }
      }
    }

    /** The new identifier is above every stored one, and a record with it keeps identifiers dense. */
    method GenerateNewUserId() returns (id: nat)
      ensures Dense(users) ==> forall i :: 0 <= i < |users| ==> users[i].id < id
      ensures Dense(users) ==> forall user: User :: user.id == id <==> Dense(users + [user])
      ensures id == 1001 + |users|
    {
      id := FIRST_USER_ID + |users|;
      forall user: User | Dense(users + [user]) ensures user.id == id {
        assert (users + [user])[|users|] == user;
      }
    }

    method WriteUser(user: User)
      modifies this`users
      ensures var (were, i) := (old(users), FindUser(old(users), user.id));
              users == if i < |were| then were[i := user] else were + [user]
    {
      var pos, found := 0, false;
      while pos < |users|
        invariant 0 <= pos <= |users| && !found && users == old(users)
        invariant forall j :: 0 <= j < pos ==> users[j].id != user.id
      {
        if users[pos].id == user.id {
          assert FindUser(users, user.id) == pos;
          users := users[pos := user];
          found := true;
          break;
        }
        pos := pos + 1;
      }
      if !found {
        users := users + [user];
      }
    }

    method WriteAccount(acc: Account)
      modifies this`accounts
      ensures var (was, i) := (old(accounts), FindAccount(old(accounts), acc.userId));
              accounts == if i < |was| then was[i := acc] else was + [acc]
    {
      var pos, found := 0, false;
      while pos < |accounts|
        invariant 0 <= pos <= |accounts| && !found && accounts == old(accounts)
        invariant forall j :: 0 <= j < pos ==> accounts[j].userId != acc.userId
      {
        if accounts[pos].userId == acc.userId {
          assert FindAccount(accounts, acc.userId) == pos;
          accounts := accounts[pos := acc];
          found := true;
          break;
        }
        pos := pos + 1;
      }
      if !found {
        accounts := accounts + [acc];
      }
    }

    method AddNewCustomer(profile: Profile, email: string, phone: string, username: string, hash: string)
      returns (ok: bool)
      modifies this`users, this`accounts
      ensures Now() == Administer(old(Now()), Command.AddCustomer(profile, email, phone, username, hash))
      ensures ok <==> forall i :: 0 <= i < |old(users)| && old(users)[i].id != 0 ==>
                        && old(users)[i].username != username && old(users)[i].email != email
                        && old(users)[i].phone != phone
      ensures var (were, was, id) := (old(users), old(accounts), 1001 + |old(users)|);
              && (ok && FindUser(were, id) == |were| ==>
                    users == were + [User(id, username, hash, Customer, profile, email, phone, true)])
              && (ok && FindAccount(was, id) == |was| ==> accounts == was + [Account(id, id, 0.0, true)])
              && (!ok ==> users == were && accounts == was)
    {
      ok := CheckUniqueness(username, email, phone, 0);
      if !ok {
        return;
      }
      var id := GenerateNewUserId();
      WriteUser(User(id, username, hash, Customer, profile, email, phone, true));
      WriteAccount(Account(id, id, 0.0, true));
    }

    method AddEmployee(profile: Profile, roleName: string, email: string, phone: string, username: string, hash: string)
      returns (ok: bool)
      modifies this`users
      ensures Now() == Administer(old(Now()), Command.AddEmployee(profile, roleName, email, phone, username, hash))
      ensures ok <==> (forall i :: 0 <= i < |old(users)| && old(users)[i].id != 0 ==>
                         && old(users)[i].username != username && old(users)[i].email != email
                         && old(users)[i].phone != phone)
                      && roleName in {"employee", "manager", "admin"}
      ensures var (were, id) := (old(users), 1001 + |old(users)|);
              var role := if roleName == "employee" then Employee else if roleName == "manager" then Manager else Admin;
              && (ok && FindUser(were, id) == |were| ==>
                    users == were + [User(id, username, hash, role, profile, email, phone, true)])
              && (!ok ==> users == were)
    {
      ok := CheckUniqueness(username, email, phone, 0);
      if !ok {
        return;
      }
      var id := GenerateNewUserId();
      var role;
      if roleName == "employee" {
        role := Employee;
      } else if roleName == "manager" {
        role := Manager;
      } else if roleName == "admin" {
        role := Admin;
      } else {
        return false;
      }
      WriteUser(User(id, username, hash, role, profile, email, phone, true));
    }

    method ModifyProfile(id: nat, customersOnly: bool, profile: Profile, email: string, phone: string)
      returns (ok: bool)
      modifies this`users
      ensures Now() == Administer(old(Now()), if customersOnly then ModifyCustomer(id, profile, email, phone)
                                              else ModifyAnyUser(id, profile, email, phone))
      ensures var (was, i) := (old(users), FindUser(old(users), id));
              && (ok <==> i < |was| && (customersOnly ==> was[i].role == Customer)
                          && forall j :: 0 <= j < |was| && was[j].id != id ==>
                               && was[j].username != was[i].username && was[j].email != email
                               && was[j].phone != phone)
              && users == if ok then was[i := was[i].(profile := profile, email := email, phone := phone)] else was
    {
      ok := false;
      var offset := FindUserOffset(id);
      if offset < 0 {
        return;
      }
      var tmp := users[offset];
      if customersOnly && tmp.role != Customer {
        return;
      }
      var unique := CheckUniqueness(tmp.username, email, phone, tmp.id);
      if !unique {
        return;
      }
      users := users[offset := tmp.(profile := profile, email := email, phone := phone)];
      ok := true;
    }
  }
}
