/**
  The user table's client side: the field validators, the create dialog's
  ordered checks, and the table's local rows and per-cell validation errors,
  which its handlers update in place.
 */
module UsersCrudTable {
  import opened Wrappers
  import opened Schema

  // ---------------------------------------------------------------------
  // Validators
  // ---------------------------------------------------------------------

  /** validateRequired: the field is not empty. */
  function ValidateRequired(value: string): (r: bool)
    ensures r <==> value != []
  {
    |value| != 0
  }

  /** A character outside the Basic Multilingual Plane takes two UTF-16 code units. */
  predicate IsAstral(c: char) {
    c as int >= 0x1_0000
  }

  /**
    JavaScript's `length`: the number of UTF-16 code units. It lies between the
    number of characters and twice that, and equals the number of characters
    exactly when none is astral.
   */
  function Utf16Length(s: string): (n: nat)
    ensures |s| <= n <= 2 * |s|
    ensures n == |s| <==> forall i :: 0 <= i < |s| ==> !IsAstral(s[i])
    ensures n == 0 <==> s == []
    decreases |s|
  {
    if |s| == 0 then 0
    else
      assert forall i :: 1 <= i < |s| ==> s[i] == s[1..][i - 1];
      (if IsAstral(s[0]) then 2 else 1) + Utf16Length(s[1..])
  }

  /** Code units add up over a concatenation. */
  lemma {:induction false} Utf16LengthAppend(a: string, b: string)
    ensures Utf16Length(a + b) == Utf16Length(a) + Utf16Length(b)
    decreases |a|
  {
    if |a| == 0 {
      assert a + b == b;
    } else {
      assert (a + b)[1..] == a[1..] + b;
      Utf16LengthAppend(a[1..], b);
    }
  }

  /**
    validatePassword: 8 to 20 UTF-16 code units (its non-empty test is implied
    by the lower bound).
   */
  function ValidatePassword(password: string): (r: bool)
    ensures r <==> 8 <= Utf16Length(password) <= 20
    ensures r ==> 4 <= |password| <= 20
  {
    Utf16Length(password) != 0 && Utf16Length(password) >= 8 && Utf16Length(password) <= 20
  }

  /**
    Lengths are code units, not characters: characters of the Basic
    Multilingual Plane followed by one astral character (an emoji) make a
    valid password exactly when there are 6 to 18 of them, so "aaaaaa" and an
    emoji pass with seven characters and nineteen letters and an emoji fail
    with twenty.
   */
  lemma ValidatePasswordCountsCodeUnits(letters: string, c: char)
    requires forall i :: 0 <= i < |letters| ==> !IsAstral(letters[i])
    requires IsAstral(c)
    ensures ValidatePassword(letters + [c]) <==> 6 <= |letters| <= 18
  {
    assert Utf16Length([c]) == 2;
    Utf16LengthAppend(letters, [c]);
  }

  /** The character class `[a-zA-Z0-9_-]`. */
  predicate IsUsernameChar(c: char) {
    ('a' <= c <= 'z') || ('A' <= c <= 'Z') || ('0' <= c <= '9') || c == '_' || c == '-'
  }

  /**
    Matching `s` against the class above repeated between `min` and `max`
    times, anchored at both ends: one character per step.
   */
  function MatchesUsernameRepeat(s: string, min: nat, max: nat): (r: bool)
    ensures r <==> min <= |s| <= max && forall i :: 0 <= i < |s| ==> IsUsernameChar(s[i])
    decreases |s|
  {
    if |s| == 0 then min == 0
    else
      assert forall i :: 1 <= i < |s| ==> s[i] == s[1..][i - 1];
      max > 0 && IsUsernameChar(s[0])
      && MatchesUsernameRepeat(s[1..], if min == 0 then 0 else min - 1, max - 1)
  }

  /** validateUsername: non-empty and matching `/^[a-zA-Z0-9_-]{3,20}$/`. */
  function ValidateUsername(username: string): (r: bool)
    ensures r <==> 3 <= |username| <= 20 && forall i :: 0 <= i < |username| ==> IsUsernameChar(username[i])
  {
    |username| != 0 && MatchesUsernameRepeat(username, 3, 20)
  }

  /** The email regular expression, which this model leaves uninterpreted. */
  type EmailPattern = string -> bool

  /** `toLowerCase` on one character, for the ASCII letters. */
  function ToLowerChar(c: char): char {
    if 'A' <= c <= 'Z' then (c as int + 32) as char else c
  }

  /** `toLowerCase` on a string, for the ASCII letters. */
  function ToLower(s: string): (r: string)
    ensures |r| == |s|
    ensures forall i :: 0 <= i < |s| ==> r[i] == ToLowerChar(s[i])
  {
    if |s| == 0 then [] else [ToLowerChar(s[0])] + ToLower(s[1..])
  }

  /** validateEmail: non-empty, and its lower-case form matches the email pattern. */
  function ValidateEmail(pattern: EmailPattern, email: string): (r: bool)
    ensures r <==> email != [] && pattern(ToLower(email))
  {
    |email| != 0 && pattern(ToLower(email))
  }

  /** Lower-casing twice is lower-casing once. */
  lemma ToLowerIdempotent(s: string)
    ensures ToLower(ToLower(s)) == ToLower(s)
  {
  }

  /** Whatever the pattern, the empty string is rejected and the case of the letters does not matter. */
  lemma ValidateEmailFacts(pattern: EmailPattern, email: string)
    ensures !ValidateEmail(pattern, "")
    ensures ValidateEmail(pattern, ToLower(email)) == ValidateEmail(pattern, email)
  {
    ToLowerIdempotent(email);
  }

  /** Every validator of the table rejects what validateRequired rejects. */
  lemma ValidatorsDemandNonEmpty(pattern: EmailPattern, value: string)
    ensures ValidatePassword(value) ==> ValidateRequired(value)
    ensures ValidateUsername(value) ==> ValidateRequired(value)
    ensures ValidateEmail(pattern, value) ==> ValidateRequired(value)
  {
  }

  // ---------------------------------------------------------------------
  // The create dialog
  // ---------------------------------------------------------------------

  /** The values typed into the create dialog. */
  datatype AccountValues = AccountValues(username: string, password: string, email: string)

  /** The check that stopped a submission; each shows its own error toast. */
  datatype AccountError = InvalidEmail | InvalidUsername | InvalidPassword

  /**
    CreateNewAccountModal.handleSubmit: email, then username, then password;
    the first failing check ends the submission. `Success(values)` stands for
    the call `onSubmit(values)` followed by closing the dialog.
   */
  function HandleSubmit(pattern: EmailPattern, values: AccountValues): (r: Result<AccountValues, AccountError>)
    ensures r.Success? <==>
      ValidateEmail(pattern, values.email) && ValidateUsername(values.username) && ValidatePassword(values.password)
    ensures r.Success? ==> r.value == values
    ensures r == Failure(InvalidEmail) <==> !ValidateEmail(pattern, values.email)
    ensures r == Failure(InvalidUsername) <==>
      ValidateEmail(pattern, values.email) && !ValidateUsername(values.username)
    ensures r == Failure(InvalidPassword) <==>
      ValidateEmail(pattern, values.email) && ValidateUsername(values.username) && !ValidatePassword(values.password)
  {
    if !ValidateEmail(pattern, values.email) then Failure(InvalidEmail)
    else if !ValidateUsername(values.username) then Failure(InvalidUsername)
    else if !ValidatePassword(values.password) then Failure(InvalidPassword)
    else Success(values)
  }

  // ---------------------------------------------------------------------
  // Cell validation on blur
  // ---------------------------------------------------------------------

  datatype UserColumn = IdColumn | UsernameColumn | PasswordColumn | EmailColumn

  /** The column headers, which the error messages quote. */
  function Header(column: UserColumn): (r: string)
    ensures column == IdColumn ==> r == "ID"
    ensures column == UsernameColumn ==> r == "User Name"
    ensures column == PasswordColumn ==> r == "Password"
    ensures column == EmailColumn ==> r == "Email"
  {
    match column
    case IdColumn => "ID"
    case UsernameColumn => "User Name"
    case PasswordColumn => "Password"
    case EmailColumn => "Email"
  }

  /** The blur handler's switch on the column id; any other column only has to be non-empty. */
  function CellIsValid(pattern: EmailPattern, column: UserColumn, value: string): (r: bool)
    ensures column == EmailColumn ==> (r <==> ValidateEmail(pattern, value))
    ensures column == UsernameColumn ==> (r <==> ValidateUsername(value))
    ensures column == PasswordColumn ==> (r <==> ValidatePassword(value))
    ensures column == IdColumn ==> (r <==> ValidateRequired(value))
    ensures r ==> ValidateRequired(value)
  {
    match column
    case EmailColumn => ValidateEmail(pattern, value)
    case UsernameColumn => ValidateUsername(value)
    case PasswordColumn => ValidatePassword(value)
    case _ => ValidateRequired(value)
  }

  // ---------------------------------------------------------------------
  // The table's local state
  // ---------------------------------------------------------------------

  /** The rows shown by the table and the validation error of each edited cell, by cell id. */
  class UsersTable {
    var tableData: seq<User>
    var validationErrors: map<string, string>
    const emailPattern: EmailPattern

    /** The table starts with the fetched users and no errors. */
    constructor (data: seq<User>, pattern: EmailPattern)
      ensures tableData == data && validationErrors == map[] && emailPattern == pattern
    {
      tableData := data;
      validationErrors := map[];
      emailPattern := pattern;
    }

    /**
      handleCreateNewRow: after asking the server to create the user, push one
      row whose id is the old row count plus one.
     */
    method HandleCreateNewRow(values: AccountValues)
      modifies this
      ensures tableData == old(tableData) + [User(|old(tableData)| + 1, values.username, values.email, values.password)]
      ensures validationErrors == old(validationErrors)
    {
      tableData := tableData + [User(|tableData| + 1, values.username, values.email, values.password)];
    }

    /**
      handleSaveRowEdits: only while no cell has an error, send the update
      and replace the edited row; `saved` says whether that happened.
     */
    method HandleSaveRowEdits(rowIndex: nat, values: User) returns (saved: bool)
      requires rowIndex < |tableData|
      modifies this
      ensures saved <==> |old(validationErrors)| == 0
      ensures tableData == if saved then old(tableData)[rowIndex := values] else old(tableData)
      ensures validationErrors == old(validationErrors)
    {
      saved := |validationErrors| == 0;
      if saved {
        tableData := tableData[rowIndex := values];
      }
    }

    /** handleCancelRowEdits: forget every cell error. */
    method HandleCancelRowEdits()
      modifies this
      ensures validationErrors == map[]
      ensures tableData == old(tableData)
    {
      validationErrors := map[];
    }

    /**
      handleDeleteRow: on confirmation, ask the server to delete the row's id.
      The local rows stay as they are, since the splice is commented out.
     */
    method HandleDeleteRow(rowIndex: nat, confirmed: bool) returns (deleteRequest: Option<int>)
      requires rowIndex < |tableData|
      ensures deleteRequest == if confirmed then Some(tableData[rowIndex].id) else None
    {
      if confirmed {
        deleteRequest := Some(tableData[rowIndex].id);
      } else {
        deleteRequest := None;
      }
    }

    /**
      The blur handler of an edited cell: an invalid value records
      "<header> is required" under the cell id, a valid one removes that
      cell's entry; no other entry changes.
     */
    method OnBlur(cellId: string, column: UserColumn, value: string)
      modifies this
      ensures validationErrors ==
        if CellIsValid(emailPattern, column, value) then old(validationErrors) - {cellId}
        else old(validationErrors)[cellId := Header(column) + " is required"]
      ensures cellId in validationErrors <==> !CellIsValid(emailPattern, column, value)
      ensures forall k :: k != cellId ==>
        (k in validationErrors <==> k in old(validationErrors))
        && (k in validationErrors ==> validationErrors[k] == old(validationErrors)[k])
      ensures tableData == old(tableData)
    {
      var isValid := CellIsValid(emailPattern, column, value);
      if !isValid {
        validationErrors := validationErrors[cellId := Header(column) + " is required"];
      } else {
        validationErrors := validationErrors - {cellId};
      }
    }
  }
}
