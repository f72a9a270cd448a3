/** The bank-account details shown on invoices
    (controllers/accountController.js over models/accountModel.js). The
    collection is read with `findOne()`, so the first record is the one in
    use; `updateAccount` finds or creates it. */
module AccountController {
  import opened Wrappers

  datatype Account = Account(accountNumber: string, bankName: string, accountName: string, updatedAt: int)

  class AccountStore {
    var records: seq<Account>

    constructor ()
      ensures records == []
    {
      records := [];
    }

    /** `Account.findOne()`. */
    function FindOne(): (r: Option<Account>)
      reads this
      ensures r.None? <==> records == []
      ensures r.Some? ==> r.value == records[0]
    {
      if records == [] then None else Some(records[0])
    }

    /** `getAccount`: 404 when no record exists, otherwise the record. */
    function GetAccount(): (r: Reply<Account>)
      reads this
      ensures r.Failure? <==> records == []
      ensures r.Failure? ==> r == Failure(NOT_FOUND, "Account details not found")
      ensures r.Success? ==> r.status == OK && r.value == records[0]
    {
      match FindOne()
      case None => Failure(NOT_FOUND, "Account details not found")
      case Some(a) => Success(OK, a)
    }

    /** `updateAccount`: all three fields are required; otherwise the record
        in use is overwritten field by field, or created when there is none,
        so the collection never gains a second record here. */
    method UpdateAccount(accountNumber: string, bankName: string, accountName: string, now: int)
      returns (r: Reply<Account>)
      modifies this
      ensures accountNumber == "" || bankName == "" || accountName == "" ==>
                r == Failure(BAD_REQUEST, "All fields are required") && records == old(records)
      ensures accountNumber != "" && bankName != "" && accountName != "" ==>
                var a := Account(accountNumber, bankName, accountName, now);
                && r == Success(OK, a)
                && records == (if old(records) == [] then [a] else old(records)[0 := a])
                && GetAccount() == Success(OK, a)
      ensures |records| == if old(records) == [] && r.Success? then 1 else |old(records)|
    {
      if accountNumber == "" || bankName == "" || accountName == "" {
        return Failure(BAD_REQUEST, "All fields are required");
      }
      var account := FindOne();
      var a: Account;
      if account.None? {
        a := Account(accountNumber, bankName, accountName, now);
        records := [a];
      } else {
        a := account.value;
        a := a.(accountNumber := accountNumber);
        a := a.(bankName := bankName);
        a := a.(accountName := accountName);
        a := a.(updatedAt := now);
        records := records[0 := a];
      }
      r := Success(OK, a);
    }
  }
}
