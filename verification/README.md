# Meraki Client VPN provisioning utility — a verified model

The utility provisions Client VPN users on Meraki dashboard networks, and
deactivates them, in bulk. The operator chooses an organization and then
the target networks. Candidate networks are those that hold an MX
appliance, listed in four columns sorted by name. The operator supplies
users by hand or from a CSV file, with a 24-character password generated
for every user that brings none. The utility then runs one batch:

- for creation, one "create auth user" request per (network, user) pair;
- for deactivation, a scan of the target networks for the user's account
  id, then a delete of that id in every target network.

It ends with a success / failure tally and an optional detailed log.

This project models that core in Dafny and proves what it promises:

- `Text` holds the pieces of Python the core leans on: `str.strip`,
  `str.split` / `join`, the substring test `in`, `int()` on strings and the
  case-insensitive "all" keyword.
- `Records` holds the records and the name -> id dictionary of target
  networks, an insertion-ordered dict kept as its list of entries.
- `NetworkSelection` covers the organization prompt's answer, the MX
  filter, the sort by name, the column-major four-column listing and the
  parsing of the selection answer.
- `UserInput` covers the generated password and the reading of the CSV
  rows (already split into cells).
- `Executors` covers the creation and deactivation batches. The dashboard
  is a gateway of function-valued parameters, and each executor also
  returns the log of the gateway calls it made.
- `Reporting` covers the final tally and the detailed log.

The status record of a creation keeps the user's display name in its
"username" field (`cli.py:603`); only the deactivation path keeps the email
there. The model follows the code on this point.

## Model

| member | source | states |
|---|---|---|
| Text.StripSpec | cli.py:348 | `str.strip()` keeps one contiguous middle part of the text and drops only whitespace before and after it; the result has no whitespace at either end |
| Text.StripEmptyIff | cli.py:508 | a cell strips to the empty string exactly when it is all whitespace |
| Text.StripTrimmed | cli.py:348 | stripping text without surrounding whitespace changes nothing |
| Text.ContainsIff | cli.py:255 | `sub in s` holds exactly when sub occurs in s at some position |
| Text.JoinSplit | cli.py:348 | splitting on a separator and joining back with it gives the input |
| Text.SplitJoin | cli.py:348 | splitting a separator-joined list of separator-free parts gives the parts back |
| Text.SplitNoSep | cli.py:348 | text without the separator splits into itself alone |
| Text.ParseNumeral | cli.py:211 | `int()` reads back the number every decimal numeral was written from |
| Text.SeparatorNotSkipped | cli.py:211 | `int()` skips surrounding whitespace but not the ASCII separators U+001C..U+001F that `str.strip()` removes: "\x1c2" strips to "2" yet is no number, while " 2\t" reads as 2 |
| Text.NumeralIsZero | cli.py:355 | the only numeral that equals the literal "0" is the numeral of zero |
| Text.AllKeywordSpellings | cli.py:343 | `input.lower() == "all"` holds for exactly the eight case spellings of "all" |
| Records.GetAbsent | cli.py:597 | a name is missing from the dictionary exactly when no entry carries it |
| Records.GetEntry | cli.py:597 | with unique keys, looking up an entry's name gives that entry's id |
| Records.Put | cli.py:351-356 | assigning a new key appends it at the end; assigning an existing key keeps the size |
| Records.PutGet | cli.py:351-356 | after the assignment the key maps to the new id and every other key is unaffected |
| Records.PutKeepsKeys | cli.py:351-356 | the assignment keeps the keys already present, in their order |
| Records.PutUnique | cli.py:351-356 | the assignment keeps keys unique |
| Records.FromListSpec | cli.py:344 | the dict comprehension maps exactly the listed names, each to the id of its last occurrence, with unique keys |
| Records.LastIdPresent | cli.py:344 | a name has a last occurrence exactly when it occurs in the list |
| Records.FromListUnique | cli.py:344 | when the names are already unique the dictionary is the list itself, in order |
| Records.PutMembers | cli.py:351-356 | after an assignment the dictionary holds only its old entries and the new one |
| Records.FromListMembers | cli.py:344 | every entry of a dictionary built from a list is one of the list's pairs |
| NetworkSelection.SelectOrgSpec | cli.py:190-217 | a single organization is taken without asking; otherwise an answer `int()` reads as k is accepted exactly when 1 <= k <= n, and then picks the k-th (so 0, negatives and numbers above n are rejected, whatever their spelling); a non-number is rejected |
| NetworkSelection.MxNetworkIdsSpec | cli.py:254-256 | an id is collected exactly when some device of that network has a model containing "MX" |
| NetworkSelection.KeepIdsMembers | cli.py:260 | a network is kept exactly when it is listed and its id is among the MX ids |
| NetworkSelection.NameLessTotal | cli.py:272 | Python's string order compares any two different names |
| NetworkSelection.NameLessTransitive | cli.py:272 | Python's string order is transitive |
| NetworkSelection.NameLessAsymmetric | cli.py:272 | Python's string order is asymmetric |
| NetworkSelection.InsertSorted | cli.py:272 | inserting into a name-sorted list keeps it sorted |
| NetworkSelection.SortByNameSpec | cli.py:272 | the sort is sorted by name, a permutation of its input, and stable: networks of equal name keep their order |
| NetworkSelection.KeepIdsNamed | cli.py:260 | filtering by id commutes with taking the networks of one name |
| NetworkSelection.ConfiguredCandidates | cli.py:247-260 | with MX filtering switched on, as the utility ships, the candidates are exactly the listed networks some MX device belongs to, sorted by name |
| NetworkSelection.CandidatesSpec | cli.py:247-272 | the candidates are sorted by name; with MX filtering a network is a candidate exactly when listed and some MX device belongs to it; without it they are a permutation of all networks; equal names keep their listing order |
| NetworkSelection.FillColumn | cli.py:283-290 | a column takes the next `rows` numbered networks, stopping when they run out, and advances the counter by what it took |
| NetworkSelection.BuildColumns | cli.py:266-299 | four columns of ceil(total/4) rows filled column-major: column c holds the networks numbered c*rows+1 to (c+1)*rows, and read in order they are the whole numbered list |
| NetworkSelection.ColumnMajor | cli.py:278-299 | four cuts of a list at multiples of `rows` are its column-major layout and concatenate back to the list |
| NetworkSelection.PyIndex | cli.py:352 | Python's `xs[i]` raises IndexError exactly when i < -len or i >= len; otherwise a non-negative i reads position i and a negative i reads position len + i |
| NetworkSelection.PicksEach | cli.py:348-356 | each comma-separated entry is read on its own, in order |
| NetworkSelection.SelectSpec | cli.py:351-356 | the comprehension fails exactly when some entry is rejected, and otherwise is the dictionary of the chosen networks, later duplicates overwriting |
| NetworkSelection.ParseSelectionSpec | cli.py:341-356 | an answer other than "all" is accepted exactly when none of its entries is rejected, and then selects what its entries choose |
| NetworkSelection.SelectAllSpec | cli.py:343-345 | "all" in any case selects every candidate, each name mapped to its last id; with unique names that is the candidate list itself |
| NetworkSelection.PickEntrySpec | cli.py:352-356 | the literal "0" is skipped; k in 1..n chooses the k-th candidate; any other k with -n < k <= 0 (such as "00" or "-1") wraps round to candidate n + k; a non-number, a number above n or a number at most -n is rejected |
| NetworkSelection.SelectByNumerals | cli.py:341-356 | typing the numbers of listed candidates, comma-separated, selects exactly those candidates in that order |
| NetworkSelection.DoubleZeroSelectsLast | cli.py:352-356 | as written, the answer "00" selects the last candidate |
| NetworkSelection.IntendedSelectionSpec | cli.py:352-356 | under the intended reading a chosen network is always the k-th candidate for a typed k in 1..n, every spelling of zero is skipped, negatives are rejected, and in-range numbers read as the code reads them |
| NetworkSelection.DoubleZeroIntended | cli.py:352-356 | under the intended reading "00" selects nothing |
| NetworkSelection.PickedFromCandidates | cli.py:351-356 | every network an entry chooses is one of the candidates |
| NetworkSelection.NumberSelects | cli.py:272-356 | over any candidate list, the k-th candidate is listed under the number k and the answer k selects that network alone |
| NetworkSelection.ListedNumberSelects | cli.py:272-356 | the whole network prompt: the k-th candidate in sorted order is listed under the number k, and answering k selects exactly that network |
| NetworkSelection.SelectNetworksChoosesCandidates | cli.py:247-356 | whatever the answer, the whole network prompt selects only listed candidates, each a network of the organization with an MX device |
| UserInput.AlphabetSpec | cli.py:556 | the password alphabet has 62 characters, exactly the ASCII letters and digits |
| UserInput.GeneratePassword | cli.py:545-558 | a generated password has 24 characters, each drawn from the alphabet |
| UserInput.BlankRowIff | cli.py:508 | a row is skipped exactly when every cell is whitespace |
| UserInput.NonBlank | cli.py:506-508 | the rows kept are non-blank rows of the file, never more than the file has |
| UserInput.NonBlankAll | cli.py:506-508 | a file without blank rows keeps every row |
| UserInput.NonBlankDropsBlank | cli.py:506-508 | a blank row anywhere in the file adds nothing |
| UserInput.ReadRow | cli.py:508-529 | a non-blank row reads as its stripped email (and stripped name, for creation), with its stripped third cell as password, or a generated password when that cell is missing or blank |
| UserInput.LoadRows | cli.py:506-529 | every non-blank row gives one user, in file order, read as ReadRow reads it; blank rows give none |
| UserInput.LoadedSnoc | cli.py:529 | appending one read row to the users loaded so far keeps them the reading of the rows kept so far |
| UserInput.CreateRowRoundTrip | cli.py:514-527 | a creation row of a clean name, email and non-empty password reads back as exactly that user |
| UserInput.DeactivateRowReadsEmail | cli.py:510-524 | a deactivation row of one cell reads as its stripped email, no name and a generated password |
| UserInput.MissingPasswordGenerated | cli.py:519-527 | a creation row whose third cell is missing or blank takes the generated password |
| Executors.CreateUsers | cli.py:561-635 | the records and the create requests are those of every (network, user) pair, network by network and user by user |
| Executors.CreateAllShape | cli.py:585-606 | with U users, record i*U+j is the i-th network and j-th user: its name and password, and the gateway's verdict on a request to that network's id with zone "<network name> - appliance" |
| Executors.CreateAllLength | cli.py:585-606 | a creation batch has one record and one request per network and user |
| Executors.CreateCallsUseTableIds | cli.py:597-601 | each request goes to the id the dictionary holds for that network's name |
| Executors.ScanFrom | cli.py:679-686 | the scan stops at the first network from its start that knows the email, every network before it knowing none |
| Executors.ResolveUserId | cli.py:674-689 | the id lookup scans the target networks in order and stops at the first that knows the email |
| Executors.LookupSpec | cli.py:674-689 | lookups go to the networks in order and stop at the first hit, whose answer is the id; there is no id exactly when no network knows the email, and then every network was asked |
| Executors.DeactivateEverywhere | cli.py:703-709 | one delete of the id per target network, in order, with one record each |
| Executors.DeactivateRowShape | cli.py:703-709 | the k-th record carries the k-th network's name, the email, the empty password and the gateway's verdict on the delete in that network |
| Executors.DeactivateUser | cli.py:663-714 | one user's records and calls: the lookups, then either the single "User not found" record or the deletes in every network |
| Executors.DeactivateStep | cli.py:663-714 | the batch of one more user is the batch so far followed by that user's records and calls |
| Executors.DeactivateUsers | cli.py:638-730 | the records and calls of the whole batch are those of every user, in order |
| Executors.UserStatusesShape | cli.py:674-709 | an unknown user gets exactly one "ALL / User not found" record and no delete; a found user gets one record per network, tagged with the email and the empty password, and one delete per network |
| Executors.DeactivateAllCount | cli.py:663-714 | the batch has one record per target network for each found user and one per user not found |
| Reporting.SuccessCount | cli.py:134 | never more successes than records |
| Reporting.Tally | cli.py:131-138 | the tally counts the successful and the failed records, and the printed total is the number of records |
| Reporting.CountsPartition | cli.py:131-138 | every record counts exactly once, as a success or as a failure |
| Reporting.SuccessCountAppend | cli.py:133-134 | the success count of a concatenated log is the sum of its parts' |
| Reporting.AllSucceededIff | cli.py:133-134 | the success count is the total exactly when every operation succeeded |
| Reporting.CreateTotal | cli.py:131-138 | a creation batch tallies to (number of networks) * (number of users) operations |
| Reporting.ClassifySpec | cli.py:758-770 | Success exactly for succeeded records; Warning exactly for failures whose error text contains "already exists"; Failure for all other failures |
| Reporting.NotFoundIsFailure | cli.py:758-770 | the "User not found" record shows as a failure with that text as its error |
| Reporting.CreateStatusLevel | cli.py:758-770 | a created user shows as a success with an empty error; a creation refused with "already exists" shows as a warning |
| Reporting.DetailedLog | cli.py:756-774 | one log row per record, in order, with its network, user and password unchanged, its level and its error text |
| Reporting.SuccessRows | cli.py:764-766 | the listed positions are exactly the rows of the log at level Success, each once, in increasing order |
| Reporting.SuccessRowsCounted | cli.py:131-134 | the tally's success count is the number of Success rows in the detailed log |

## Left out

- The prompts themselves are left out: the API key, the operation, the input method, manual entry, the file name and every "Confirm"/"Proceed" question. So is each re-prompt loop. Each answer the core parses is a parameter, and a rejected answer is `None`, standing for "ask again".
- The authentication loop is left out. So are organization, network and device listing through the SDK; their results are parameters.
- File I/O and CSV tokenizing (quoting, escapes) are left out. A file is given as its rows, already split into cells. A missing file is not modelled.
- Rendering is left out: the console tree, the grid, the progress bars, the colour markup and the printed messages. The listing is modelled as its four columns of numbered entries, and the detailed log as rows with a `Level`.
- UserInput.GeneratePassword: the draw from `secrets` is an arbitrary choice, not a uniform random one. The contract states only the length and the alphabet.
- The dashboard gateway is modelled as pure functions of the request. Retries, rate limits and exceptions other than the reported error are not modelled. An error that is not an API error is carried as its text.
- Executors.CreateUsers: the model assumes every failed creation reports an API error. The gateway returns any exception as the error (meraki_client_vpn_provisioning.py:71-76). On a failure that is not an API error, `status["error"].message` (cli.py:614) raises an AttributeError that nothing catches, and the run ends with no tally or log. The model instead records that failure and carries on, so it claims one record per (network, user) pair in a case where the source aborts.
- Executors.DeactivateUsers requires at least one target network when there are users. With none, the source fails with a NameError on its "not found" message (cli.py:692-694).
- UserInput.LoadRows requires every creation row to have a second cell. The source raises an IndexError on such a row (cli.py:517), and nothing catches it.
- `int()` and `str.lower()` are modelled on ASCII digits and letters. Non-ASCII digits and non-ASCII case mappings are not modelled; none of them lower-cases to "all". `int()` skips the whitespace `str.isspace` accepts except U+001C..U+001F, which `str.strip()` removes and `int()` rejects; the model follows both.
- Reporting.Tally counts only the success field. In the records the source builds, that field is the only value that compares equal to True or False.
- KeyboardInterrupt handling and logging configuration are left out.

## Findings

| source | as written | input that shows it | evidently intended | confidence | as-written member | corrected member |
|---|---|---|---|---|---|---|
| cli.py:352-356 | only the literal "0" is skipped; any other entry k reads `networks[k - 1]`, so "00" (which `int()` reads as 0) and negative numbers index from the end of the list | answer "00" with at least one candidate: the last candidate is selected instead of nothing | every spelling of zero is skipped, and only 1..n choose a network | not executed | NetworkSelection.DoubleZeroSelectsLast | NetworkSelection.IntendedSelectionSpec |
