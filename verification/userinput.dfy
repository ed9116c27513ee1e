/** Turning the operator's input into user records: the generated password
    and the rows of a user file, already split into cells. */
module UserInput {
  import opened Text
  import opened Records

  /** Whether the batch provisions users or deactivates them. */
  datatype Operation = Add | Deactivate

  /** Python's string.ascii_letters + string.digits. */
  const Alphabet: string := Run('a', 26) + Run('A', 26) + Run('0', 10)

  /** The n characters starting at first. */
  function Run(first: char, n: nat): (r: string)
    requires first as int + n <= 0xD800
    ensures |r| == n && forall i :: 0 <= i < n ==> r[i] as int == first as int + i
  {
    seq(n, i requires 0 <= i < n => (first as int + i) as char)
  }

  const PasswordLength: nat := 24

  predicate IsAlphanumeric(c: char)
  {
    'a' <= c <= 'z' || 'A' <= c <= 'Z' || '0' <= c <= '9'
  }

  /** The alphabet is the 62 ASCII letters and digits, each once. */
  lemma AlphabetSpec()
    ensures |Alphabet| == 62
    ensures forall c :: c in Alphabet <==> IsAlphanumeric(c)
  {
    forall c | IsAlphanumeric(c)
      ensures c in Alphabet
    {
      if 'a' <= c <= 'z' {
        assert Alphabet[c as int - 'a' as int] == c;
      } else if 'A' <= c <= 'Z' {
        assert Alphabet[26 + (c as int - 'A' as int)] == c;
      } else {
        assert Alphabet[52 + (c as int - '0' as int)] == c;
      }
    }
    forall c | c in Alphabet
      ensures IsAlphanumeric(c)
    {
      var i :| 0 <= i < 62 && Alphabet[i] == c;
    }
  }

  /** What generatePassword promises: 24 characters, each a letter or digit. */
  predicate IsGeneratedPassword(p: string)
  {
    |p| == PasswordLength && forall i :: 0 <= i < |p| ==> p[i] in Alphabet
  }

  /** generatePassword: 24 independent draws from the alphabet. The draw is
      random in the source; here it is an arbitrary choice. */
  method GeneratePassword() returns (password: string)
    ensures IsGeneratedPassword(password)
  {
    password := "";
    for i := 0 to PasswordLength
      invariant |password| == i
      invariant forall k :: 0 <= k < i ==> password[k] in Alphabet
    {
      assert |Alphabet| == 62 && Alphabet[0] in Alphabet;
      var c :| c in Alphabet;
      password := password + [c];
    }
  }

  /** One line of the user file, split into cells. */
  type Row = seq<string>

  /** `any(item.strip() for item in line)` is false: every cell strips to
      nothing (in particular, a line without cells). */
  predicate IsBlankRow(row: Row)
  {
    forall i :: 0 <= i < |row| ==> Strip(row[i]) == []
  }

  /** A row is blank exactly when all its cells are whitespace. */
  lemma BlankRowIff(row: Row)
    ensures IsBlankRow(row) <==> forall i :: 0 <= i < |row| ==> AllSpace(row[i])
  {
    forall i | 0 <= i < |row|
      ensures Strip(row[i]) == [] <==> AllSpace(row[i])
    {
      StripEmptyIff(row[i]);
    }
  }

  /** A row the parser can read: blank, or holding the cells the operation
      reads (the email for a deactivation, name and email for a creation). */
  predicate Readable(row: Row, op: Operation)
  {
    IsBlankRow(row) || op == Deactivate || |row| >= 2
  }

  /** The row brings its own password: a third cell that is not blank. */
  predicate HasPassword(row: Row)
  {
    |row| > 2 && Strip(row[2]) != []
  }

  /** The record a non-blank row gives, generated standing for the password
      generatePassword would produce for it. */
  function RowUser(row: Row, op: Operation, generated: string): User
    requires !IsBlankRow(row) && Readable(row, op)
  {
    assert |row| > 0;
    var password := if HasPassword(row) then Strip(row[2]) else generated;
    match op
    case Deactivate => User(None, Strip(row[0]), password)
    case Add => User(Some(Strip(row[0])), Strip(row[1]), password)
  }

  /** The non-blank rows, in file order. */
  function NonBlank(rows: seq<Row>): (kept: seq<Row>)
    ensures |kept| <= |rows|
    ensures forall k :: 0 <= k < |kept| ==> !IsBlankRow(kept[k]) && kept[k] in rows
  {
    if rows == [] then []
    else NonBlank(rows[..|rows| - 1]) + if IsBlankRow(rows[|rows| - 1]) then [] else [rows[|rows| - 1]]
  }

  /** A file without blank rows keeps every row. */
  lemma {:induction false} NonBlankAll(rows: seq<Row>)
    requires forall k :: 0 <= k < |rows| ==> !IsBlankRow(rows[k])
    ensures NonBlank(rows) == rows
  {
    if rows != [] {
      NonBlankAll(rows[..|rows| - 1]);
      assert rows == rows[..|rows| - 1] + [rows[|rows| - 1]];
    }
  }

  /** A blank row anywhere adds nothing. */
  lemma {:induction false} NonBlankDropsBlank(a: seq<Row>, row: Row, b: seq<Row>)
    requires IsBlankRow(row)
    ensures NonBlank(a + [row] + b) == NonBlank(a + b)
  {
    if b == [] {
      assert (a + [row] + b)[..|a|] == a;
      assert a + b == a;
    } else {
      var m := |b| - 1;
      NonBlankDropsBlank(a, row, b[..m]);
      assert (a + [row] + b)[..|a| + 1 + m] == a + [row] + b[..m];
      assert (a + b)[..|a| + m] == a + b[..m];
    }
  }

  /** users is what reading the non-blank rows kept, one by one, gives: each
      record is its row as RowUser reads it, and its password is a generated
      one wherever the row brings none. */
  predicate Loaded(kept: seq<Row>, users: seq<User>, op: Operation)
  {
    |users| == |kept| &&
    forall k :: 0 <= k < |kept| ==>
      !IsBlankRow(kept[k]) && Readable(kept[k], op) &&
      users[k] == RowUser(kept[k], op, users[k].password) &&
      (!HasPassword(kept[k]) ==> IsGeneratedPassword(users[k].password))
  }

  lemma LoadedSnoc(kept: seq<Row>, users: seq<User>, op: Operation, row: Row, user: User)
    requires Loaded(kept, users, op)
    requires !IsBlankRow(row) && Readable(row, op)
    requires user == RowUser(row, op, user.password)
    requires !HasPassword(row) ==> IsGeneratedPassword(user.password)
    ensures Loaded(kept + [row], users + [user], op)
  {
    forall k | 0 <= k < |kept| + 1
      ensures (kept + [row])[k] == if k < |kept| then kept[k] else row
      ensures (users + [user])[k] == if k < |users| then users[k] else user
    {
    }
  }

  /** The file-loading loop of promptUploadCSV: every non-blank row gives one
      record in file order, read as RowUser reads it, with a generated
      password wherever the row brings none. */
  method LoadRows(rows: seq<Row>, op: Operation) returns (users: seq<User>)
    requires forall k :: 0 <= k < |rows| ==> Readable(rows[k], op)
    ensures Loaded(NonBlank(rows), users, op)
  {
    users := [];
    for i := 0 to |rows|
      invariant Loaded(NonBlank(rows[..i]), users, op)
    {
      var line := rows[i];
      NonBlankStep(rows, i);
      if !IsBlankRow(line) {
        var user := ReadRow(line, op);
        LoadedSnoc(NonBlank(rows[..i]), users, op, line, user);
        users := users + [user];
      }
    }
    assert rows[..|rows|] == rows;
  }

  lemma NonBlankStep(rows: seq<Row>, i: nat)
    requires i < |rows|
    ensures NonBlank(rows[..i + 1]) == NonBlank(rows[..i]) + if IsBlankRow(rows[i]) then [] else [rows[i]]
  {
    assert rows[..i + 1][..i] == rows[..i];
  }

  /** The body of the loop for one non-blank row: the name and email cells,
      then the third cell if there is one, and a generated password when it
      is missing or blank. */
  method ReadRow(line: Row, op: Operation) returns (user: User)
    requires !IsBlankRow(line) && Readable(line, op)
    ensures user == RowUser(line, op, user.password)
    ensures !HasPassword(line) ==> IsGeneratedPassword(user.password)
  {
    assert |line| > 0;
    var username: Option<string>;
    var email: string;
    if op == Deactivate {
      username, email := None, Strip(line[0]);
    } else {
      username, email := Some(Strip(line[0])), Strip(line[1]);
    }
    var password: string;
    if |line| > 2 {
      password := Strip(line[2]);
    } else {
      password := GeneratePassword();
    }
    if password == "" {
      password := GeneratePassword();
    }
    user := User(username, email, password);
  }

  /** A creation row holding a clean name, email and password reads back as
      exactly that user: writing a user as a row and loading it is lossless. */
  lemma CreateRowRoundTrip(name: string, email: string, password: string, generated: string)
    requires Trimmed(name) && Trimmed(email) && Trimmed(password) && password != []
    ensures !IsBlankRow([name, email, password])
    ensures RowUser([name, email, password], Add, generated) == User(Some(name), email, password)
  {
    var row := [name, email, password];
    StripTrimmed(name);
    StripTrimmed(email);
    StripTrimmed(password);
    assert Strip(row[2]) != [];
    assert HasPassword(row);
  }

  /** A deactivation row reads only its first cell, stripped, and takes a
      generated password when it has no third cell. */
  lemma DeactivateRowReadsEmail(email: string, generated: string)
    requires !AllSpace(email)
    ensures !IsBlankRow([email])
    ensures RowUser([email], Deactivate, generated) == User(None, Strip(email), generated)
  {
    StripEmptyIff(email);
    assert Strip([email][0]) != [];
  }

  /** A creation row whose password cell is missing or blank takes the
      generated password. */
  lemma MissingPasswordGenerated(row: Row, generated: string)
    requires !IsBlankRow(row) && |row| >= 2
    requires |row| == 2 || AllSpace(row[2])
    ensures RowUser(row, Add, generated).password == generated
  {
    if |row| > 2 {
      StripEmptyIff(row[2]);
    }
  }
}
