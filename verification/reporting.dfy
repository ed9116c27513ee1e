/** The end of a batch: the success / failure tally and the detailed log, one
    row per status record with its network, user, password, level and the
    error text shown to the operator. */
module Reporting {
  import opened Text
  import opened Records
  import opened Executors

  /** The number of records whose operation succeeded. */
  function SuccessCount(statuses: seq<Status>): (n: nat)
    ensures n <= |statuses|
  {
    if statuses == [] then 0
    else SuccessCount(statuses[..|statuses| - 1]) + if statuses[|statuses| - 1].success then 1 else 0
  }

  /** The number of records whose operation failed. */
  function FailureCount(statuses: seq<Status>): (n: nat)
    ensures n <= |statuses|
  {
    if statuses == [] then 0
    else FailureCount(statuses[..|statuses| - 1]) + if statuses[|statuses| - 1].success then 0 else 1
  }

  /** Every record is counted once, as a success or as a failure, so the
      printed total is the number of records. */
  lemma {:induction false} CountsPartition(statuses: seq<Status>)
    ensures SuccessCount(statuses) + FailureCount(statuses) == |statuses|
  {
    if statuses != [] {
      CountsPartition(statuses[..|statuses| - 1]);
    }
  }

  /** The success count of a concatenated log is the sum of the parts'. */
  lemma {:induction false} SuccessCountAppend(a: seq<Status>, b: seq<Status>)
    ensures SuccessCount(a + b) == SuccessCount(a) + SuccessCount(b)
  {
    if b == [] {
      assert a + b == a;
    } else {
      SuccessCountAppend(a, b[..|b| - 1]);
      assert (a + b)[..|a + b| - 1] == a + b[..|b| - 1];
    }
  }

  /** Every operation succeeded exactly when the success count is the total. */
  lemma {:induction false} AllSucceededIff(statuses: seq<Status>)
    ensures SuccessCount(statuses) == |statuses| <==> forall k :: 0 <= k < |statuses| ==> statuses[k].success
  {
    if statuses != [] {
      var p := statuses[..|statuses| - 1];
      AllSucceededIff(p);
      if forall k :: 0 <= k < |p| ==> p[k].success {
        if statuses[|statuses| - 1].success {
          assert forall k :: 0 <= k < |statuses| ==> statuses[k].success by {
            forall k | 0 <= k < |statuses|
              ensures statuses[k].success
            {
              if k < |p| {
                assert statuses[k] == p[k];
              }
            }
          }
        }
      } else {
        var k :| 0 <= k < |p| && !p[k].success;
        assert !statuses[k].success;
      }
    }
  }

  /** The summary loop of main: counts the values equal to True and the values
      equal to False across every record. Only the success flag is a boolean
      (the other fields are strings, None or an error), so these are the
      successes and the failures. */
  method Tally(finalStatus: seq<Status>) returns (successful: nat, failed: nat)
    ensures successful == SuccessCount(finalStatus)
    ensures failed == FailureCount(finalStatus)
    ensures successful + failed == |finalStatus|
  {
    successful, failed := 0, 0;
    for i := 0 to |finalStatus|
      invariant successful == SuccessCount(finalStatus[..i])
      invariant failed == FailureCount(finalStatus[..i])
    {
      assert finalStatus[..i + 1][..i] == finalStatus[..i];
      if finalStatus[i].success {
        successful := successful + 1;
      } else {
        failed := failed + 1;
      }
    }
    assert finalStatus[..|finalStatus|] == finalStatus;
    CountsPartition(finalStatus);
  }

  /** A creation batch reports one record per network and user. */
  lemma CreateTotal(targets: Table, users: seq<User>, create: CreateRequest -> Outcome)
    ensures SuccessCount(CreateAll(targets, users, create)) + FailureCount(CreateAll(targets, users, create))
            == |targets| * |users|
  {
    CountsPartition(CreateAll(targets, users, create));
    CreateAllLength(targets, users, create);
  }

  /** The error text of the detailed log: empty for no error, the first entry
      of an API error's error list, or the message itself. */
  function ParsedError(e: ErrorInfo): string
  {
    match e
    case ApiError(first) => first
    case Message(text) => text
  }

  /** The coloured status column. */
  datatype Level = Success | Warning | Failure

  const AlreadyExists: string := "already exists"

  /** A record's level: a success, a failure the dashboard explains as a
      duplicate, or any other failure. */
  function Classify(s: Status): Level
  {
    if s.success then Success
    else if Contains(ParsedError(s.error), AlreadyExists) then Warning
    else Failure
  }

  /** The level read back in terms of the record: Success exactly for
      succeeded operations, Warning exactly for failures whose error text
      contains "already exists" somewhere, Failure for the rest. */
  lemma ClassifySpec(s: Status)
    ensures Classify(s) == Success <==> s.success
    ensures Classify(s) == Warning <==> !s.success && Occurs(ParsedError(s.error), AlreadyExists)
    ensures Classify(s) == Failure <==> !s.success && !Occurs(ParsedError(s.error), AlreadyExists)
  {
    ContainsIff(ParsedError(s.error), AlreadyExists);
  }

  /** The record of a user no network knows is shown as a failure. */
  lemma NotFoundIsFailure(email: string)
    ensures Classify(NotFound(email)) == Failure
    ensures ParsedError(NotFound(email).error) == "User not found"
  {
    var text := "User not found";
    ContainsIff(text, AlreadyExists);
    assert text[0..|AlreadyExists|][0] != AlreadyExists[0];
    assert forall i :: OccursAt(text, AlreadyExists, i) ==> i == 0;
  }

  /** A created user is shown as a success with an empty error column; a
      creation the dashboard refused as a duplicate is shown as a warning. */
  lemma CreateStatusLevel(n: Network, u: User, o: Outcome)
    ensures o.Succeeded? ==> Classify(CreateStatus(n, u, o)) == Success
    ensures o.Succeeded? ==> ParsedError(CreateStatus(n, u, o).error) == ""
    ensures o.Failed? && Occurs(ParsedError(o.error), AlreadyExists) ==> Classify(CreateStatus(n, u, o)) == Warning
  {
    if o.Failed? {
      ClassifySpec(CreateStatus(n, u, o));
    }
  }

  /** One row of the detailed log. */
  datatype LogRow = LogRow(network: string, user: Option<string>, password: string, level: Level, error: string)

  function LogLine(s: Status): LogRow
  {
    LogRow(s.network, s.username, s.password, Classify(s), ParsedError(s.error))
  }

  /** printFinalStatus: one row per record, in order, carrying the record's
      network, user and password unchanged, its level and its error text. */
  method DetailedLog(finalStatus: seq<Status>) returns (rows: seq<LogRow>)
    ensures |rows| == |finalStatus|
    ensures forall k :: 0 <= k < |rows| ==> rows[k] == LogLine(finalStatus[k])
  {
    rows := [];
    for i := 0 to |finalStatus|
      invariant |rows| == i
      invariant forall k :: 0 <= k < i ==> rows[k] == LogLine(finalStatus[k])
    {
      var entry := finalStatus[i];
      var parsedError := ParsedError(entry.error);
      var level: Level;
      if entry.success {
        level := Success;
      } else if Contains(parsedError, AlreadyExists) {
        level := Warning;
      } else {
        level := Failure;
      }
      rows := rows + [LogRow(entry.network, entry.username, entry.password, level, parsedError)];
    }
  }

  /** The number of Success rows in the detailed log is the tally's success
      count. */
  lemma {:induction false} SuccessRowsCounted(statuses: seq<Status>)
    ensures SuccessCount(statuses) == |SuccessRows(statuses)|
  {
    if statuses != [] {
      SuccessRowsCounted(statuses[..|statuses| - 1]);
    }
  }

  /** The positions whose log row is at level Success: every one of them,
      each once, in increasing order. */
  function SuccessRows(statuses: seq<Status>): (ks: seq<nat>)
    ensures forall k :: 0 <= k < |ks| ==> ks[k] < |statuses| && LogLine(statuses[ks[k]]).level == Success
    ensures forall k :: 0 <= k < |statuses| && statuses[k].success ==> k in ks
    ensures forall a, b :: 0 <= a < b < |ks| ==> ks[a] < ks[b]
  {
    if statuses == [] then []
    else
      var p := statuses[..|statuses| - 1];
      var last := |statuses| - 1;
      var prior := SuccessRows(p);
      assert forall k :: 0 <= k < |p| ==> statuses[k] == p[k];
      prior + if LogLine(statuses[last]).level == Success then [last] else []
  }
}
