/**
  The salary table's client side: the amount validator, the list of users
  that still lack a salary (the only users the create dialog offers), the
  dialog's check, and the table's local rows and per-cell validation errors,
  which its handlers update in place.
 */
module SalaryCrudTable {
  import opened Wrappers
  import opened Seqs
  import opened Schema
  import UsersCrudTable

  /** validateSalary: only a negative amount is refused; zero is accepted. */
  function ValidateSalary(value: int): (r: bool)
    ensures r <==> value >= 0
  {
    if value < 0 then false else true
  }

  /** No row of the table is a salary of user `userId`. */
  predicate HasNoSalary(tableData: seq<Salary>, userId: int) {
    forall s :: s in tableData ==> s.userId != userId
  }

  /**
    userIdsThatDoNotHaveSalary: the ids of the users whose id is the userId of
    no row of the table, in the order of the user list.
   */
  function UserIdsThatDoNotHaveSalary(tableData: seq<Salary>, users: seq<User>): (r: seq<int>)
    ensures r == Map((u: User) => u.id, Filter((u: User) => HasNoSalary(tableData, u.id), users))
    ensures |r| <= |users|
    ensures forall id :: id in r <==>
      (exists u :: u in users && u.id == id) && HasNoSalary(tableData, id)
  {
    var userIdsThatHaveSalary := Map((s: Salary) => s.userId, tableData);
    FilterCongruence((u: User) => u.id !in userIdsThatHaveSalary,
      (u: User) => HasNoSalary(tableData, u.id), users);
    Map((u: User) => u.id, Filter((u: User) => u.id !in userIdsThatHaveSalary, users))
  }

  /** The users the create dialog lists in its user selector. */
  function CreateModalUserOptions(users: seq<User>, userIdsThatDoNotHaveSalary: seq<int>): (r: seq<User>)
    ensures forall u :: u in r ==> u in users
  {
    Filter((u: User) => u.id in userIdsThatDoNotHaveSalary, users)
  }

  /** The dialog offers exactly the users of whom the table holds no salary row. */
  lemma CreateModalOffersUsersWithoutSalary(tableData: seq<Salary>, users: seq<User>, u: User)
    ensures u in CreateModalUserOptions(users, UserIdsThatDoNotHaveSalary(tableData, users)) <==>
      u in users && HasNoSalary(tableData, u.id)
  {
  }

  /** The values of the create dialog. */
  datatype SalaryValues = SalaryValues(userId: int, amount: int)

  datatype SalaryError = InvalidAmount

  /**
    CreateNewAccountModal.handleSubmit of the salary table: a negative amount
    stops the submission; otherwise `Success(values)` stands for `onSubmit(values)`.
   */
  function HandleSubmit(values: SalaryValues): (r: Result<SalaryValues, SalaryError>)
    ensures r.Success? <==> values.amount >= 0
    ensures r.Success? ==> r.value == values
    ensures r.Failure? ==> r.error == InvalidAmount
  {
    if !ValidateSalary(values.amount) then Failure(InvalidAmount) else Success(values)
  }

  datatype SalaryColumn = IdColumn | UserIdColumn | AmountColumn

  /** The column headers, which the error messages quote. */
  function Header(column: SalaryColumn): (r: string)
    ensures column == IdColumn ==> r == "ID"
    ensures column == UserIdColumn ==> r == "User ID"
    ensures column == AmountColumn ==> r == "Salary amount"
  {
    match column
    case IdColumn => "ID"
    case UserIdColumn => "User ID"
    case AmountColumn => "Salary amount"
  }

  /**
    The blur handler's switch on the column id: the amount column checks the
    number the text converts to, every other column that the text is non-empty.
   */
  function CellIsValid(column: SalaryColumn, text: string, number: int): (r: bool)
    ensures column == AmountColumn ==> (r <==> number >= 0)
    ensures column != AmountColumn ==> (r <==> text != [])
  {
    match column
    case AmountColumn => ValidateSalary(number)
    case _ => UsersCrudTable.ValidateRequired(text)
  }

  /** Adding a salary row for `row.userId` takes exactly that id off the list of users without salary. */
  lemma CreatedRowLeavesUsersWithoutSalary(tableData: seq<Salary>, users: seq<User>, row: Salary, id: int)
    ensures id in UserIdsThatDoNotHaveSalary(tableData + [row], users) <==>
      id in UserIdsThatDoNotHaveSalary(tableData, users) && id != row.userId
  {
    assert HasNoSalary(tableData + [row], id) <==> HasNoSalary(tableData, id) && id != row.userId by {
      assert forall s :: s in tableData + [row] <==> s in tableData || s == row;
    }
  }

  /** Appending a row for a user without a salary keeps Salary.userId unique. */
  lemma AppendKeepsOneSalaryPerUser(tableData: seq<Salary>, row: Salary)
    requires OneSalaryPerUser(tableData)
    requires HasNoSalary(tableData, row.userId)
    ensures OneSalaryPerUser(tableData + [row])
  {
    var before := SalaryUserIds(tableData);
    var rows := tableData + [row];
    assert row.userId !in before;
    assert SalaryUserIds(rows) == before + [row.userId] by {
      assert forall i :: 0 <= i < |tableData| ==> rows[i] == tableData[i];
      assert rows[|tableData|] == row;
    }
    DistinctSnoc(before, row.userId);
  }

  /**
    Creating a row for a user the dialog offers keeps Salary.userId unique in
    the table's rows.
   */
  lemma CreateFromOptionsKeepsOneSalaryPerUser(tableData: seq<Salary>, users: seq<User>, row: Salary)
    requires OneSalaryPerUser(tableData)
    requires row.userId in UserIdsThatDoNotHaveSalary(tableData, users)
    ensures OneSalaryPerUser(tableData + [row])
  {
    AppendKeepsOneSalaryPerUser(tableData, row);
  }

  /** Removing a row keeps Salary.userId unique in the table's rows. */
  lemma RemoveAtKeepsOneSalaryPerUser(tableData: seq<Salary>, i: nat)
    requires i < |tableData|
    requires OneSalaryPerUser(tableData)
    ensures OneSalaryPerUser(RemoveAt(tableData, i))
  {
  }

  /** The rows shown by the salary table and the validation error of each edited cell, by cell id. */
  class SalaryTable {
    var tableData: seq<Salary>
    var validationErrors: map<string, string>
    const users: seq<User>
    /** JavaScript's `Number(text)`, as the amount column applies it. */
    const toNumber: string -> int

    /** The table starts with the fetched salaries and no errors. */
    constructor (data: seq<Salary>, allUsers: seq<User>, number: string -> int)
      ensures tableData == data && validationErrors == map[]
      ensures users == allUsers && toNumber == number
    {
      tableData := data;
      validationErrors := map[];
      users := allUsers;
      toNumber := number;
    }

    /** The ids the create dialog may offer, recomputed from the current rows. */
    function UsersWithoutSalary(): (r: seq<int>)
      reads this
      ensures forall id :: id in r <==>
        (exists u :: u in users && u.id == id) && HasNoSalary(tableData, id)
    {
      UserIdsThatDoNotHaveSalary(tableData, users)
    }

    /**
      handleCreateNewRow: after asking the server to create the salary, push
      one row whose id is the old row count plus one; earlier rows keep their places.
     */
    method HandleCreateNewRow(values: SalaryValues)
      modifies this
      ensures tableData == old(tableData) + [Salary(|old(tableData)| + 1, values.userId, values.amount)]
      ensures validationErrors == old(validationErrors)
      ensures values.userId !in UsersWithoutSalary()
    {
      tableData := tableData + [Salary(|tableData| + 1, values.userId, values.amount)];
      CreatedRowLeavesUsersWithoutSalary(old(tableData), users, Salary(|old(tableData)| + 1, values.userId, values.amount), values.userId);
    }

    /**
      handleSaveRowEdits: only while no cell has an error, send the update
      and replace the edited row; `saved` says whether that happened.
     */
    method HandleSaveRowEdits(rowIndex: nat, values: Salary) returns (saved: bool)
      requires rowIndex < |tableData|
      modifies this
      ensures saved <==> |old(validationErrors)| == 0
      ensures tableData == if saved then old(tableData)[rowIndex := values] else old(tableData)
      ensures validationErrors == old(validationErrors)
    {
      saved := |validationErrors| == 0;
      if saved {
        tableData := tableData[rowIndex := values];
      }
    }

    /** handleCancelRowEdits: forget every cell error. */
    method HandleCancelRowEdits()
      modifies this
      ensures validationErrors == map[]
      ensures tableData == old(tableData)
    {
      validationErrors := map[];
    }

    /**
      handleDeleteRow: on confirmation, ask the server to delete the row's id
      and splice that one row out of the local rows.
     */
    method HandleDeleteRow(rowIndex: nat, confirmed: bool) returns (deleteRequest: Option<int>)
      requires rowIndex < |tableData|
      modifies this
      ensures deleteRequest == if confirmed then Some(old(tableData)[rowIndex].id) else None
      ensures tableData == if confirmed then RemoveAt(old(tableData), rowIndex) else old(tableData)
      ensures validationErrors == old(validationErrors)
      ensures OneSalaryPerUser(old(tableData)) ==> OneSalaryPerUser(tableData)
    {
      if confirmed {
        deleteRequest := Some(tableData[rowIndex].id);
        if OneSalaryPerUser(tableData) {
          RemoveAtKeepsOneSalaryPerUser(tableData, rowIndex);
        }
        tableData := RemoveAt(tableData, rowIndex);
      } else {
        deleteRequest := None;
      }
    }

    /**
      The blur handler of an edited cell: an invalid value records
      "<header> is required" under the cell id, a valid one removes that
      cell's entry; no other entry changes.
     */
    method OnBlur(cellId: string, column: SalaryColumn, text: string)
      modifies this
      ensures validationErrors ==
        if CellIsValid(column, text, toNumber(text)) then old(validationErrors) - {cellId}
        else old(validationErrors)[cellId := Header(column) + " is required"]
      ensures cellId in validationErrors <==> !CellIsValid(column, text, toNumber(text))
      ensures forall k :: k != cellId ==>
        (k in validationErrors <==> k in old(validationErrors))
        && (k in validationErrors ==> validationErrors[k] == old(validationErrors)[k])
      ensures tableData == old(tableData)
    {
      var isValid := CellIsValid(column, text, toNumber(text));
      if !isValid {
        validationErrors := validationErrors[cellId := Header(column) + " is required"];
      } else {
        validationErrors := validationErrors - {cellId};
      }
    }
  }
}
