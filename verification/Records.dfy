/** The records of the database files, the linear searches over them and the
    record modifiers that run under a record lock. */
module Records {

  datatype Option<+T> = None | Some(value: T)

  datatype Role = Customer | Employee | Manager | Admin

  datatype LoanStatus = Pending | Assigned | Approved | Rejected

  datatype Note = DepositNote | WithdrawNote | TransferOutNote | TransferInNote | LoanDepositNote

  datatype Profile = Profile(firstName: string, lastName: string, age: int, address: string)

  datatype User = User(id: nat, username: string, passwordHash: string, role: Role, profile: Profile,
                       email: string, phone: string, active: bool)

  datatype Account = Account(accountId: nat, userId: nat, balance: real, active: bool)

  datatype Txn = Txn(id: nat, from: nat, to: nat, amount: real, note: Note)

  datatype Loan = Loan(id: nat, userId: nat, amount: real, status: LoanStatus, assignedTo: nat)

  // ----- Linear searches: the index of the first matching record, or the table length

  function FindAccount(accounts: seq<Account>, userId: nat): (i: nat)
    ensures i <= |accounts|
    ensures i < |accounts| ==> accounts[i].userId == userId
    ensures forall j :: 0 <= j < i ==> accounts[j].userId != userId
  {
    if |accounts| == 0 || accounts[0].userId == userId then 0 else 1 + FindAccount(accounts[1..], userId)
  }

  function FindUser(users: seq<User>, id: nat): (i: nat)
    ensures i <= |users|
    ensures i < |users| ==> users[i].id == id
    ensures forall j :: 0 <= j < i ==> users[j].id != id
  {
    if |users| == 0 || users[0].id == id then 0 else 1 + FindUser(users[1..], id)
  }

  function FindUsername(users: seq<User>, username: string): (i: nat)
    ensures i <= |users|
    ensures i < |users| ==> users[i].username == username
    ensures forall j :: 0 <= j < i ==> users[j].username != username
  {
    if |users| == 0 || users[0].username == username then 0 else 1 + FindUsername(users[1..], username)
  }

  function FindLoan(loans: seq<Loan>, id: nat): (i: nat)
    ensures i <= |loans|
    ensures i < |loans| ==> loans[i].id == id
    ensures forall j :: 0 <= j < i ==> loans[j].id != id
  {
    if |loans| == 0 || loans[0].id == id then 0 else 1 + FindLoan(loans[1..], id)
  }

  // ----- Modifiers: None is the modifier's refusal

  datatype AccountChange = Credit(amount: real) | Debit(amount: real) | SetActive(active: bool)

  function ModifyAccount(acc: Account, change: AccountChange): Option<Account> {
    match change
    case Credit(a) => if !acc.active then None else Some(acc.(balance := acc.balance + a))
    case Debit(a) =>
      if !acc.active then None
      else if acc.balance < a then None
      else Some(acc.(balance := acc.balance - a))
    case SetActive(b) => Some(acc.(active := b))
  }

  datatype UserChange = SetRole(roleName: string) | SetPassword(hash: string)

  function ModifyUser(user: User, change: UserChange): Option<User> {
    match change
    case SetPassword(h) => Some(user.(passwordHash := h))
    case SetRole(name) =>
      if user.role == Customer || user.role == Admin then None
      else if name == "employee" then Some(user.(role := Employee))
      else if name == "manager" then Some(user.(role := Manager))
      else None
  }

  // ----- One atomic find-and-modify

  function UpdateAccount(accounts: seq<Account>, userId: nat, change: AccountChange): Option<seq<Account>> {
    var i := FindAccount(accounts, userId);
    if i == |accounts| then None
    else
      match ModifyAccount(accounts[i], change)
      case None => None
      case Some(acc) => Some(accounts[i := acc])
  }

  function UpdateUser(users: seq<User>, id: nat, change: UserChange): Option<seq<User>> {
    var i := FindUser(users, id);
    if i == |users| then None
    else
      match ModifyUser(users[i], change)
      case None => None
      case Some(user) => Some(users[i := user])
  }

  // ----- Update an existing record or append a new one

  function PutUser(users: seq<User>, user: User): seq<User> {
    var i := FindUser(users, user.id);
    if i == |users| then users + [user] else users[i := user]
  }

  function PutAccount(accounts: seq<Account>, acc: Account): seq<Account> {
    var i := FindAccount(accounts, acc.userId);
    if i == |accounts| then accounts + [acc] else accounts[i := acc]
  }

  const FIRST_USER_ID: nat := 1001

  /** User identifiers count up from the first one. */
  predicate Dense(users: seq<User>) {
    forall i :: 0 <= i < |users| ==> users[i].id == FIRST_USER_ID + i
  }

  function NewUserId(users: seq<User>): nat { FIRST_USER_ID + |users| }

  /** check_uniqueness: no record other than `self` shares the username, the email or the phone. */
  predicate IsUnique(users: seq<User>, username: string, email: string, phone: string, self: nat) {
    forall i :: 0 <= i < |users| && users[i].id != self ==>
      users[i].username != username && users[i].email != email && users[i].phone != phone
  }
}
