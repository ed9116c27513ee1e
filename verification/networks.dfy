/** Choosing the working organization and the target networks: the MX filter
    over the organization's devices, the sort by name, the four-column
    listing, and the parsing of the operator's selection. */
module NetworkSelection {
  import opened Text
  import opened Records

  /** Whether candidate networks are restricted to those holding an MX appliance. */
  const FilterOnlyMxNetworks: bool := true

  /** An organization device: the network it belongs to and its model name. */
  datatype Device = Device(networkId: string, model: string)

  // ---------------------------------------------------------------------
  // Organization choice

  /** One answer to the organization prompt: with exactly one organization it
      is chosen without asking; otherwise the answer must be an integer in
      1..|orgs|, and None stands for the rejection that makes it ask again. */
  function SelectOrg(orgs: seq<Org>, selection: string): Option<string>
  {
    if |orgs| == 1 then Some(orgs[0].id)
    else match ParseInt(selection)
      case Some(k) => if 1 <= k <= |orgs| then Some(orgs[k - 1].id) else None
      case None => None
  }

  /** Typing the number an organization is listed under chooses it; a number
      outside the list, or no number at all, is rejected. */
  lemma SelectOrgSpec(orgs: seq<Org>, selection: string, k: nat)
    ensures |orgs| == 1 ==> SelectOrg(orgs, selection) == Some(orgs[0].id)
    ensures |orgs| != 1 && 1 <= k <= |orgs| ==> SelectOrg(orgs, Numeral(k)) == Some(orgs[k - 1].id)
    ensures |orgs| != 1 && k > |orgs| ==> SelectOrg(orgs, Numeral(k)) == None
    ensures |orgs| != 1 && ParseInt(selection).None? ==> SelectOrg(orgs, selection) == None
    ensures |orgs| == 0 ==> SelectOrg(orgs, selection) == None
    ensures |orgs| != 1 && ParseInt(selection).Some? ==>
      (SelectOrg(orgs, selection).Some? <==> 1 <= ParseInt(selection).value <= |orgs|)
    ensures |orgs| != 1 && ParseInt(selection).Some? && 1 <= ParseInt(selection).value <= |orgs| ==>
      SelectOrg(orgs, selection) == Some(orgs[ParseInt(selection).value - 1].id)
  {
    ParseNumeral(k);
  }

  // ---------------------------------------------------------------------
  // Candidate networks

  predicate IsMx(d: Device)
  {
    Contains(d.model, "MX")
  }

  /** The network ids of the MX devices, in device order. */
  function MxNetworkIds(devices: seq<Device>): seq<string>
  {
    if devices == [] then []
    else (if IsMx(devices[0]) then [devices[0].networkId] else []) + MxNetworkIds(devices[1..])
  }

  lemma {:induction false} MxNetworkIdsSpec(devices: seq<Device>, id: string)
    ensures id in MxNetworkIds(devices) <==>
      exists d :: d in devices && d.networkId == id && Occurs(d.model, "MX")
  {
    if devices != [] {
      MxNetworkIdsSpec(devices[1..], id);
      ContainsIff(devices[0].model, "MX");
      assert devices == [devices[0]] + devices[1..];
    }
  }

  /** The networks whose id is in `ids`, in their original order. */
  function KeepIds(networks: seq<Network>, ids: seq<string>): seq<Network>
  {
    if networks == [] then []
    else (if networks[0].id in ids then [networks[0]] else []) + KeepIds(networks[1..], ids)
  }

  lemma {:induction false} KeepIdsMembers(networks: seq<Network>, ids: seq<string>, n: Network)
    ensures n in KeepIds(networks, ids) <==> n in networks && n.id in ids
  {
    if networks != [] {
      KeepIdsMembers(networks[1..], ids, n);
      assert networks == [networks[0]] + networks[1..];
    }
  }

  /** The networks to list: with MX filtering, those an MX device belongs to;
      then sorted by name. */
  function Candidates(networks: seq<Network>, devices: seq<Device>, filterMx: bool): seq<Network>
  {
    var kept := if filterMx then KeepIds(networks, MxNetworkIds(devices)) else networks;
    SortByName(kept)
  }

  /** As configured, the candidates are exactly the listed networks that
      some device whose model contains "MX" belongs to, sorted by name. */
  lemma ConfiguredCandidates(networks: seq<Network>, devices: seq<Device>)
    ensures SortedByName(Candidates(networks, devices, FilterOnlyMxNetworks))
    ensures forall n :: n in Candidates(networks, devices, FilterOnlyMxNetworks) <==>
      n in networks && exists d :: d in devices && d.networkId == n.id && Occurs(d.model, "MX")
  {
    CandidatesSpec(networks, devices, FilterOnlyMxNetworks);
  }

  // ---------------------------------------------------------------------
  // Sorting by name (Python's stable list.sort with key = name)

  /** Python's `<` on strings: code-point lexicographic order. */
  predicate NameLess(a: string, b: string)
  {
    if a == [] then b != []
    else if b == [] then false
    else if a[0] != b[0] then a[0] < b[0]
    else NameLess(a[1..], b[1..])
  }

  /** NameLess is a strict total order. */
  lemma {:induction false} NameLessIrreflexive(a: string)
    ensures !NameLess(a, a)
  {
    if a != [] {
      NameLessIrreflexive(a[1..]);
    }
  }

  lemma {:induction false} NameLessTotal(a: string, b: string)
    ensures a == b || NameLess(a, b) || NameLess(b, a)
  {
    if a != [] && b != [] && a[0] == b[0] {
      NameLessTotal(a[1..], b[1..]);
      if a[1..] == b[1..] {
        assert a == [a[0]] + a[1..] && b == [b[0]] + b[1..];
      }
    }
  }

  lemma {:induction false} NameLessTransitive(a: string, b: string, c: string)
    requires NameLess(a, b) && NameLess(b, c)
    ensures NameLess(a, c)
  {
    if a != [] && a[0] == b[0] && b[0] == c[0] {
      NameLessTransitive(a[1..], b[1..], c[1..]);
    }
  }

  lemma NameLessAsymmetric(a: string, b: string)
    requires NameLess(a, b)
    ensures !NameLess(b, a)
  {
    if NameLess(b, a) {
      NameLessTransitive(a, b, a);
      NameLessIrreflexive(a);
    }
  }

  /** n goes before the first entry whose name is not smaller than its own. */
  function InsertByName(n: Network, s: seq<Network>): (r: seq<Network>)
    ensures multiset(r) == multiset(s) + multiset{n}
    ensures |r| == |s| + 1
  {
    if s == [] || !NameLess(s[0].name, n.name) then [n] + s
    else
      assert s == [s[0]] + s[1..];
      [s[0]] + InsertByName(n, s[1..])
  }

  function SortByName(s: seq<Network>): (r: seq<Network>)
    ensures multiset(r) == multiset(s)
    ensures |r| == |s|
  {
    if s == [] then []
    else
      assert s == [s[0]] + s[1..];
      InsertByName(s[0], SortByName(s[1..]))
  }

  ghost predicate SortedByName(s: seq<Network>)
  {
    forall i, j :: 0 <= i < j < |s| ==> !NameLess(s[j].name, s[i].name)
  }

  lemma {:induction false} InsertSorted(n: Network, s: seq<Network>)
    requires SortedByName(s)
    ensures SortedByName(InsertByName(n, s))
  {
    if s == [] || !NameLess(s[0].name, n.name) {
      var r := [n] + s;
      forall i, j | 0 <= i < j < |r|
        ensures !NameLess(r[j].name, r[i].name)
      {
        if i == 0 {
          if j > 1 {
            if NameLess(s[j - 1].name, n.name) {
              NameLessTotal(s[0].name, s[j - 1].name);
              if s[0].name != s[j - 1].name {
                NameLessTransitive(s[0].name, s[j - 1].name, n.name);
              }
            }
          }
        }
      }
    } else {
      InsertSorted(n, s[1..]);
      var r := InsertByName(n, s);
      var tail := InsertByName(n, s[1..]);
      assert r == [s[0]] + tail;
      forall j | 0 < j < |r|
        ensures !NameLess(r[j].name, s[0].name)
      {
        assert r[j] in multiset(tail);
        assert r[j] in multiset(s[1..]) + multiset{n};
        if r[j] == n {
          NameLessAsymmetric(s[0].name, n.name);
        } else {
          assert r[j] in s[1..];
          var k :| 0 <= k < |s[1..]| && s[1..][k] == r[j];
          assert s[k + 1] == r[j];
        }
      }
    }
  }

  /** The entries named x, in order. */
  function Named(s: seq<Network>, x: string): seq<Network>
  {
    if s == [] then [] else (if s[0].name == x then [s[0]] else []) + Named(s[1..], x)
  }

  lemma {:induction false} InsertNamed(n: Network, s: seq<Network>, x: string)
    ensures Named(InsertByName(n, s), x) == if n.name == x then [n] + Named(s, x) else Named(s, x)
  {
    if s != [] && NameLess(s[0].name, n.name) {
      InsertNamed(n, s[1..], x);
      var r := InsertByName(n, s);
      assert r[0] == s[0] && r[1..] == InsertByName(n, s[1..]);
      if n.name == x {
        assert s[0].name != x by {
          if s[0].name == x {
            NameLessIrreflexive(x);
          }
        }
      }
    }
  }

  /** The sort puts the names in order, keeps every entry, and is stable:
      the entries of any one name keep their relative order. */
  lemma {:induction false} SortByNameSpec(s: seq<Network>)
    ensures SortedByName(SortByName(s))
    ensures multiset(SortByName(s)) == multiset(s)
    ensures forall x :: Named(SortByName(s), x) == Named(s, x)
  {
    if s != [] {
      SortByNameSpec(s[1..]);
      InsertSorted(s[0], SortByName(s[1..]));
      forall x
        ensures Named(SortByName(s), x) == Named(s, x)
      {
        InsertNamed(s[0], SortByName(s[1..]), x);
      }
    }
  }

  /** The MX filter keeps a network exactly when an MX device belongs to it,
      and keeps the original order among the networks it keeps. */
  lemma {:induction false} KeepIdsNamed(networks: seq<Network>, ids: seq<string>, x: string)
    ensures Named(KeepIds(networks, ids), x) == KeepIds(Named(networks, x), ids)
  {
    if networks != [] {
      KeepIdsNamed(networks[1..], ids, x);
      var n := networks[0];
      assert KeepIds(networks, ids) == (if n.id in ids then [n] else []) + KeepIds(networks[1..], ids);
      NamedAppend(if n.id in ids then [n] else [], KeepIds(networks[1..], ids), x);
      KeepIdsAppend(if n.name == x then [n] else [], Named(networks[1..], x), ids);
    }
  }

  lemma {:induction false} NamedAppend(a: seq<Network>, b: seq<Network>, x: string)
    ensures Named(a + b, x) == Named(a, x) + Named(b, x)
  {
    if a == [] {
      assert a + b == b;
    } else {
      NamedAppend(a[1..], b, x);
      NamedCons(a, b, x);
    }
  }

  lemma NamedCons(a: seq<Network>, b: seq<Network>, x: string)
    requires a != []
    ensures Named(a + b, x) == (if a[0].name == x then [a[0]] else []) + Named(a[1..] + b, x)
  {
    assert (a + b)[0] == a[0] && (a + b)[1..] == a[1..] + b;
  }

  lemma {:induction false} KeepIdsAppend(a: seq<Network>, b: seq<Network>, ids: seq<string>)
    ensures KeepIds(a + b, ids) == KeepIds(a, ids) + KeepIds(b, ids)
  {
    if a == [] {
      assert a + b == b;
    } else {
      KeepIdsAppend(a[1..], b, ids);
      KeepIdsCons(a, b, ids);
    }
  }

  lemma KeepIdsCons(a: seq<Network>, b: seq<Network>, ids: seq<string>)
    requires a != []
    ensures KeepIds(a + b, ids) == (if a[0].id in ids then [a[0]] else []) + KeepIds(a[1..] + b, ids)
  {
    assert (a + b)[0] == a[0] && (a + b)[1..] == a[1..] + b;
  }

  /** The candidate list: it is sorted by name; with MX filtering a network is
      a candidate exactly when it is listed and some device whose model
      contains "MX" belongs to it, without filtering every network is; and
      for every name, the candidates of that name are the kept networks of
      that name in their original order. */
  lemma CandidatesSpec(networks: seq<Network>, devices: seq<Device>, filterMx: bool)
    ensures SortedByName(Candidates(networks, devices, filterMx))
    ensures filterMx ==> forall n :: n in Candidates(networks, devices, filterMx) <==>
      n in networks && exists d :: d in devices && d.networkId == n.id && Occurs(d.model, "MX")
    ensures !filterMx ==> multiset(Candidates(networks, devices, filterMx)) == multiset(networks)
    ensures forall x :: Named(Candidates(networks, devices, filterMx), x) == (if filterMx
              then KeepIds(Named(networks, x), MxNetworkIds(devices)) else Named(networks, x))
  {
    var kept := if filterMx then KeepIds(networks, MxNetworkIds(devices)) else networks;
    SortByNameSpec(kept);
    if filterMx {
      forall n
        ensures n in Candidates(networks, devices, filterMx) <==>
          n in networks && exists d :: d in devices && d.networkId == n.id && Occurs(d.model, "MX")
      {
        MxNetworkIdsSpec(devices, n.id);
        KeepIdsMembers(networks, MxNetworkIds(devices), n);
        assert n in Candidates(networks, devices, filterMx) <==> n in multiset(kept);
      }
      forall x
        ensures Named(Candidates(networks, devices, filterMx), x) == KeepIds(Named(networks, x), MxNetworkIds(devices))
      {
        KeepIdsNamed(networks, MxNetworkIds(devices), x);
      }
    }
  }

  // ---------------------------------------------------------------------
  // The four-column listing

  /** A listing cell: the number the operator types, and the network's name. */
  datatype Entry = Entry(number: nat, name: string)

  /** Rows of the four-column grid: ceil(total / 4). */
  function RowCount(total: nat): nat
  {
    (total + 3) / 4
  }

  /** Every network with the number it is listed under. */
  function Numbered(names: seq<string>): (r: seq<Entry>)
    ensures |r| == |names|
  {
    seq(|names|, k requires 0 <= k < |names| => Entry(k + 1, names[k]))
  }

  function Min(a: nat, b: nat): nat
  {
    if a <= b then a else b
  }

  /** Fill one column from `counter` on, stopping at `rows` entries or when the
      networks run out; returns the column and the advanced counter. */
  method FillColumn(names: seq<string>, counter: nat, rows: nat) returns (column: seq<Entry>, next: nat)
    requires counter <= |names|
    ensures next == Min(counter + rows, |names|)
    ensures column == Numbered(names)[counter..next]
  {
    column, next := [], counter;
    for each := 0 to rows
      invariant next == Min(counter + each, |names|)
      invariant column == Numbered(names)[counter..next]
    {
      if next == |names| {
        break;
      }
      column := column + [Entry(next + 1, names[next])];
      next := next + 1;
    }
  }

  /** The four columns of the listing, filled column-major: column c holds
      the networks numbered c * rows + 1 up to (c + 1) * rows, where rows is
      ceil(total / 4), and read column by column they are the whole numbered
      list. */
  method BuildColumns(names: seq<string>) returns (columns: seq<seq<Entry>>)
    ensures |columns| == 4
    ensures forall c :: 0 <= c < 4 ==>
      var rows := RowCount(|names|);
      columns[c] == Numbered(names)[Min(c * rows, |names|)..Min(c * rows + rows, |names|)]
    ensures columns[0] + columns[1] + columns[2] + columns[3] == Numbered(names)
  {
    var rows := RowCount(|names|);
    var total := |names|;
    ghost var all := Numbered(names);
    var counter := 0;
    var column1, column2, column3, column4;
    column1, counter := FillColumn(names, counter, rows);
    assert counter == Min(rows, total);
    column2, counter := FillColumn(names, counter, rows);
    assert counter == Min(2 * rows, total);
    column3, counter := FillColumn(names, counter, rows);
    assert counter == Min(3 * rows, total);
    column4, counter := FillColumn(names, counter, rows);
    assert counter == total;
    columns := [column1, column2, column3, column4];
    ColumnMajor(all, rows, columns);
  }

  /** Four columns cut from a list at 0, rows, 2 * rows and 3 * rows (capped
      at its length) are its column-major layout: column c holds the slice
      from c * rows, and the columns read in order give back the list. */
  lemma ColumnMajor<T>(all: seq<T>, rows: nat, columns: seq<seq<T>>)
    requires |columns| == 4 && |all| <= 4 * rows
    requires columns[0] == all[0..Min(rows, |all|)]
    requires columns[1] == all[Min(rows, |all|)..Min(2 * rows, |all|)]
    requires columns[2] == all[Min(2 * rows, |all|)..Min(3 * rows, |all|)]
    requires columns[3] == all[Min(3 * rows, |all|)..|all|]
    ensures forall c :: 0 <= c < 4 ==> columns[c] == all[Min(c * rows, |all|)..Min(c * rows + rows, |all|)]
    ensures columns[0] + columns[1] + columns[2] + columns[3] == all
  {
    forall c | 0 <= c < 4
      ensures columns[c] == all[Min(c * rows, |all|)..Min(c * rows + rows, |all|)]
    {
      if c == 2 {
        assert c * rows == 2 * rows;
      } else if c == 3 {
        assert c * rows == 3 * rows;
      }
    }
    ColumnsJoin(all, rows, columns);
  }

  lemma ColumnsJoin<T>(all: seq<T>, rows: nat, columns: seq<seq<T>>)
    requires |columns| == 4
    requires columns[0] == all[0..Min(rows, |all|)]
    requires columns[1] == all[Min(rows, |all|)..Min(2 * rows, |all|)]
    requires columns[2] == all[Min(2 * rows, |all|)..Min(3 * rows, |all|)]
    requires columns[3] == all[Min(3 * rows, |all|)..|all|]
    ensures columns[0] + columns[1] + columns[2] + columns[3] == all
  {
    var total := |all|;
    SliceJoin(all, 0, Min(rows, total), Min(2 * rows, total));
    SliceJoin(all, 0, Min(2 * rows, total), Min(3 * rows, total));
    SliceJoin(all, 0, Min(3 * rows, total), total);
    assert all[0..total] == all;
  }

  lemma SliceJoin<T>(s: seq<T>, a: nat, b: nat, c: nat)
    requires a <= b <= c <= |s|
    ensures s[a..b] + s[b..c] == s[a..c]
  {
  }

  // ---------------------------------------------------------------------
  // Parsing the operator's selection

  /** What one comma-separated entry contributes: nothing (the literal "0"),
      a network, or a rejection (the ValueError or IndexError that discards
      the whole answer and asks again). */
  datatype Pick = Skip | Chosen(network: Network) | Rejected

  /** Python's `xs[i]` on a list of length len: the position it reads, with a
      negative i counting from the end, or None for an IndexError. */
  function PyIndex(len: nat, i: int): (r: Option<nat>)
    ensures r.None? <==> i < -(len as int) || len as int <= i
    ensures r.Some? ==> r.value < len
    ensures r.Some? && 0 <= i ==> r.value == i
    ensures r.Some? && i < 0 ==> r.value == len as int + i
  {
    if 0 <= i < len then Some(i)
    else if -(len as int) <= i < 0 then Some((len as int + i) as nat)
    else None
  }

  /** One entry as the source reads it: skip the literal "0", otherwise
      `networks[int(entry) - 1]`. */
  function PickEntry(cands: seq<Network>, entry: string): Pick
  {
    if entry == "0" then Skip
    else match ParseInt(entry)
      case None => Rejected
      case Some(k) =>
        match PyIndex(|cands|, k - 1)
        case None => Rejected
        case Some(i) => Chosen(cands[i])
  }

  /** The stripped comma-separated entries of an answer. */
  function Entries(input: string): seq<string>
  {
    var parts := Split(input, ',');
    seq(|parts|, k requires 0 <= k < |parts| => Strip(parts[k]))
  }

  /** How each entry of an answer is read, entry by entry. */
  function Picks(cands: seq<Network>, entries: seq<string>): seq<Pick>
  {
    if entries == [] then []
    else Picks(cands, entries[..|entries| - 1]) + [PickEntry(cands, entries[|entries| - 1])]
  }

  /** The k-th reading is the reading of the k-th entry. */
  lemma {:induction false} PicksAt(cands: seq<Network>, entries: seq<string>, k: nat)
    requires k < |entries|
    ensures k < |Picks(cands, entries)| && Picks(cands, entries)[k] == PickEntry(cands, entries[k])
  {
    PicksLength(cands, entries);
    if k < |entries| - 1 {
      PicksAt(cands, entries[..|entries| - 1], k);
    }
  }

  lemma {:induction false} PicksLength(cands: seq<Network>, entries: seq<string>)
    ensures |Picks(cands, entries)| == |entries|
  {
    if entries != [] {
      PicksLength(cands, entries[..|entries| - 1]);
    }
  }

  /** The readings of entries that each choose the given network. */
  function ChosenEach(ns: seq<Network>): (r: seq<Pick>)
    ensures |r| == |ns| && forall i :: 0 <= i < |ns| ==> r[i] == Chosen(ns[i])
  {
    seq(|ns|, i requires 0 <= i < |ns| => Chosen(ns[i]))
  }

  /** The dictionary comprehension over the entries' readings: None as soon
      as one entry is rejected, otherwise every chosen network's name mapped
      to its id, in the order the entries name them. */
  function Select(picks: seq<Pick>): Option<Table>
  {
    if picks == [] then Some([])
    else match Select(picks[..|picks| - 1])
      case None => None
      case Some(t) =>
        match picks[|picks| - 1]
        case Rejected => None
        case Skip => Some(t)
        case Chosen(n) => Some(Put(t, n))
  }

  /** The networks the entries choose, in entry order. */
  function Picked(picks: seq<Pick>): seq<Network>
  {
    if picks == [] then []
    else Picked(picks[..|picks| - 1])
         + match picks[|picks| - 1] case Chosen(n) => [n] case _ => []
  }

  /** One answer to the network prompt: the keyword "all", in any case, takes
      every candidate; anything else is read as a list of 1-based numbers.
      None stands for the error that makes the prompt ask again. */
  function ParseSelection(cands: seq<Network>, input: string): Option<Table>
  {
    if IsAllKeyword(input) then Some(FromList(cands))
    else Select(Picks(cands, Entries(input)))
  }

  /** The comprehension fails exactly when some entry is rejected, and
      otherwise builds the dictionary of the chosen networks. */
  lemma {:induction false} SelectSpec(picks: seq<Pick>)
    ensures Select(picks).Some? <==> forall k :: 0 <= k < |picks| ==> !picks[k].Rejected?
    ensures Select(picks).Some? ==> Select(picks).value == FromList(Picked(picks))
  {
    if picks != [] {
      var p := picks[..|picks| - 1];
      SelectSpec(p);
      assert forall k :: 0 <= k < |p| ==> p[k] == picks[k];
      if Select(picks).Some? {
        SelectStep(picks);
      }
    }
  }

  /** The last entry's contribution to the dictionary is its contribution to
      the picked list. */
  lemma SelectStep(picks: seq<Pick>)
    requires picks != []
    requires var p := picks[..|picks| - 1];
      Select(p).Some? && Select(p).value == FromList(Picked(p))
    requires Select(picks).Some?
    ensures Select(picks).value == FromList(Picked(picks))
  {
    var q := Picked(picks[..|picks| - 1]);
    var e := picks[|picks| - 1];
    if e.Chosen? {
      assert Picked(picks) == q + [e.network];
      assert (q + [e.network])[..|q|] == q;
    } else {
      assert Picked(picks) == q;
    }
  }

  /** Anything but "all" is accepted exactly when none of its entries is
      rejected, and then selects the networks its entries choose. */
  lemma ParseSelectionSpec(cands: seq<Network>, input: string)
    requires !IsAllKeyword(input)
    ensures ParseSelection(cands, input).Some? <==>
      forall k :: 0 <= k < |Entries(input)| ==> !PickEntry(cands, Entries(input)[k]).Rejected?
    ensures ParseSelection(cands, input).Some? ==>
      ParseSelection(cands, input).value == FromList(Picked(Picks(cands, Entries(input))))
  {
    var entries := Entries(input);
    SelectSpec(Picks(cands, entries));
    PicksEach(cands, entries);
  }

  /** The readings of an answer are the readings of its entries, in order. */
  lemma PicksEach(cands: seq<Network>, entries: seq<string>)
    ensures |Picks(cands, entries)| == |entries|
    ensures forall k :: 0 <= k < |entries| ==> Picks(cands, entries)[k] == PickEntry(cands, entries[k])
  {
    PicksLength(cands, entries);
    forall k | 0 <= k < |entries|
      ensures Picks(cands, entries)[k] == PickEntry(cands, entries[k])
    {
      PicksAt(cands, entries, k);
    }
  }

  /** "all" in any case selects the whole candidate list, name -> id, the
      last candidate winning for a repeated name; with unique names it is the
      candidate list itself. */
  lemma SelectAllSpec(cands: seq<Network>, input: string)
    requires IsAllKeyword(input)
    ensures ParseSelection(cands, input).Some?
    ensures forall x :: Get(ParseSelection(cands, input).value, x) == LastId(cands, x)
    ensures UniqueNames(cands) ==> ParseSelection(cands, input) == Some(cands)
  {
    FromListSpec(cands);
    if UniqueNames(cands) {
      FromListUnique(cands);
    }
  }

  /** How one entry is read: "0" is skipped; a number k with 1 <= k <= |cands|
      chooses the k-th candidate; a non-number or a number above |cands| is
      rejected. */
  lemma PickEntrySpec(cands: seq<Network>, entry: string)
    ensures entry == "0" ==> PickEntry(cands, entry) == Skip
    ensures entry != "0" && ParseInt(entry).None? ==> PickEntry(cands, entry) == Rejected
    ensures entry != "0" && ParseInt(entry).Some? && 1 <= ParseInt(entry).value <= |cands| ==>
      PickEntry(cands, entry) == Chosen(cands[ParseInt(entry).value - 1])
    ensures entry != "0" && ParseInt(entry).Some? && ParseInt(entry).value > |cands| ==>
      PickEntry(cands, entry) == Rejected
    ensures entry != "0" && ParseInt(entry).Some? && -|cands| < ParseInt(entry).value <= 0 ==>
      PickEntry(cands, entry) == Chosen(cands[|cands| + ParseInt(entry).value - 1])
    ensures entry != "0" && ParseInt(entry).Some? && ParseInt(entry).value <= -|cands| ==>
      PickEntry(cands, entry) == Rejected
  {
  }

  /** The numerals of valid positions, joined with commas, select exactly the
      candidates at those positions: typing "2,5" selects the 2nd and 5th. */
  lemma SelectByNumerals(cands: seq<Network>, ks: seq<nat>, input: string)
    requires |ks| > 0
    requires forall i :: 0 <= i < |ks| ==> 1 <= ks[i] <= |cands|
    requires input == Join(Numerals(ks), ',')
    ensures ParseSelection(cands, input) == Some(FromList(AtPositions(cands, ks)))
  {
    NumeralsClean(cands, ks);
    NumeralsPick(cands, ks);
    SelectPieces(cands, Numerals(ks), AtPositions(cands, ks));
  }

  /** Numerals are clean entries. */
  lemma NumeralsClean(cands: seq<Network>, ks: seq<nat>)
    requires |ks| > 0
    requires forall i :: 0 <= i < |ks| ==> 1 <= ks[i] <= |cands|
    ensures |Numerals(ks)| > 0 && |Numerals(ks)[0]| > 0 && IsDigit(Numerals(ks)[0][0])
    ensures forall i :: 0 <= i < |ks| ==> ',' !in Numerals(ks)[i] && Trimmed(Numerals(ks)[i])
  {
    var numerals := Numerals(ks);
    forall i | 0 <= i < |ks|
      ensures ',' !in numerals[i] && Trimmed(numerals[i])
    {
      NumeralEntry(cands, ks[i], numerals[i]);
    }
  }

  /** The numeral of each valid position chooses that position. */
  lemma {:induction false} NumeralsPick(cands: seq<Network>, ks: seq<nat>)
    requires forall i :: 0 <= i < |ks| ==> 1 <= ks[i] <= |cands|
    ensures Picks(cands, Numerals(ks)) == ChosenEach(AtPositions(cands, ks))
  {
    if ks != [] {
      var m := |ks| - 1;
      NumeralsPick(cands, ks[..m]);
      var ns := Numerals(ks);
      NumeralEntry(cands, ks[m], ns[m]);
      PositionsSnoc(cands, ks);
    }
  }

  /** Numerals and positions of ks are those of its prefix and its last element. */
  lemma PositionsSnoc(cands: seq<Network>, ks: seq<nat>)
    requires ks != []
    requires forall i :: 0 <= i < |ks| ==> 1 <= ks[i] <= |cands|
    ensures Numerals(ks)[..|ks| - 1] == Numerals(ks[..|ks| - 1])
    ensures ChosenEach(AtPositions(cands, ks))
      == ChosenEach(AtPositions(cands, ks[..|ks| - 1])) + [Chosen(cands[ks[|ks| - 1] - 1])]
  {
  }

  /** The numerals of some numbers. */
  function Numerals(ks: seq<nat>): (r: seq<string>)
    ensures |r| == |ks| && forall i :: 0 <= i < |ks| ==> r[i] == Numeral(ks[i])
  {
    seq(|ks|, i requires 0 <= i < |ks| => Numeral(ks[i]))
  }

  /** The candidates at the given 1-based positions. */
  function AtPositions(cands: seq<Network>, ks: seq<nat>): (r: seq<Network>)
    requires forall i :: 0 <= i < |ks| ==> 1 <= ks[i] <= |cands|
    ensures |r| == |ks| && forall i :: 0 <= i < |ks| ==> r[i] == cands[ks[i] - 1]
  {
    seq(|ks|, i requires 0 <= i < |ks| => cands[ks[i] - 1])
  }

  /** An answer made of clean pieces, each choosing a network, selects those
      networks in order. */
  lemma SelectPieces(cands: seq<Network>, pieces: seq<string>, chosen: seq<Network>)
    requires |pieces| > 0 && |pieces[0]| > 0 && IsDigit(pieces[0][0])
    requires forall i :: 0 <= i < |pieces| ==> ',' !in pieces[i] && Trimmed(pieces[i])
    requires Picks(cands, pieces) == ChosenEach(chosen)
    ensures ParseSelection(cands, Join(pieces, ',')) == Some(FromList(chosen))
  {
    EntriesOfJoin(pieces);
    JoinNotKeyword(pieces);
    var picks := Picks(cands, pieces);
    SelectSpec(picks);
    PickedAll(picks, chosen);
  }

  /** Joining clean pieces gives an answer whose entries are those pieces. */
  lemma EntriesOfJoin(pieces: seq<string>)
    requires |pieces| > 0
    requires forall i :: 0 <= i < |pieces| ==> ',' !in pieces[i] && Trimmed(pieces[i])
    ensures Entries(Join(pieces, ',')) == pieces
  {
    SplitJoin(pieces, ',');
    EntriesOfParts(Join(pieces, ','), pieces);
  }

  /** An answer that starts with a digit is not the keyword "all". */
  lemma JoinNotKeyword(pieces: seq<string>)
    requires |pieces| > 0 && |pieces[0]| > 0 && IsDigit(pieces[0][0])
    ensures !IsAllKeyword(Join(pieces, ','))
  {
    JoinStartsWith(pieces, ',');
    NotKeyword(Join(pieces, ','));
  }

  lemma EntriesOfParts(input: string, pieces: seq<string>)
    requires Split(input, ',') == pieces
    requires forall i :: 0 <= i < |pieces| ==> Trimmed(pieces[i])
    ensures Entries(input) == pieces
  {
    forall i | 0 <= i < |pieces|
      ensures Strip(pieces[i]) == pieces[i]
    {
      StripTrimmed(pieces[i]);
    }
  }

  lemma NotKeyword(s: string)
    requires |s| > 0 && IsDigit(s[0])
    ensures !IsAllKeyword(s)
  {
  }

  /** The numeral of a valid position is a clean entry choosing that position. */
  lemma NumeralEntry(cands: seq<Network>, k: nat, s: string)
    requires 1 <= k <= |cands| && s == Numeral(k)
    ensures ',' !in s && Trimmed(s)
    ensures PickEntry(cands, s) == Chosen(cands[k - 1])
  {
    DigitsClean(s);
    ParseNumeral(k);
    NumeralIsZero(k);
    PickNumber(cands, s, k);
  }

  /** An entry other than "0" that int() reads as a valid position chooses it. */
  lemma PickNumber(cands: seq<Network>, entry: string, k: int)
    requires entry != "0" && ParseInt(entry) == Some(k) && 1 <= k <= |cands|
    ensures PickEntry(cands, entry) == Chosen(cands[k - 1])
  {
  }

  /** A string of digits holds no comma and no surrounding whitespace. */
  lemma DigitsClean(s: string)
    requires |s| > 0 && forall i :: 0 <= i < |s| ==> IsDigit(s[i])
    ensures ',' !in s && Trimmed(s)
  {
    assert !IsSpace(s[0]) && !IsSpace(s[|s| - 1]);
  }

  lemma {:induction false} JoinStartsWith(parts: seq<string>, sep: char)
    requires |parts| >= 1 && |parts[0]| > 0
    ensures |Join(parts, sep)| > 0 && Join(parts, sep)[0] == parts[0][0]
  {
  }

  /** When every entry chooses a network, the picked list is those networks. */
  lemma {:induction false} PickedAll(picks: seq<Pick>, chosen: seq<Network>)
    requires |chosen| == |picks|
    requires forall i :: 0 <= i < |picks| ==> picks[i] == Chosen(chosen[i])
    ensures Picked(picks) == chosen
  {
    if picks != [] {
      var m := |picks| - 1;
      PickedAll(picks[..m], chosen[..m]);
      assert chosen == chosen[..m] + [chosen[m]];
    }
  }

  /** As written, "00" is not the literal "0" but is the number 0, so it reads
      networks[-1]: the last candidate is selected. */
  lemma DoubleZeroSelectsLast(cands: seq<Network>)
    requires |cands| > 0
    ensures ParseSelection(cands, "00") == Some([cands[|cands| - 1]])
  {
    DoubleZeroEntry();
    DoubleZeroPick(cands);
    OneEntry(cands, "00");
    SelectOne(Chosen(cands[|cands| - 1]));
  }

  lemma DoubleZeroPick(cands: seq<Network>)
    requires |cands| > 0
    ensures PickEntry(cands, "00") == Chosen(cands[|cands| - 1])
  {
    DoubleZeroEntry();
  }

  /** An answer of one entry is read as that entry. */
  lemma OneEntry(cands: seq<Network>, e: string)
    ensures Picks(cands, [e]) == [PickEntry(cands, e)]
    ensures PicksIntended(cands, [e]) == [PickEntryIntended(cands, e)]
  {
    assert [e][..0] == [];
  }

  /** The comprehension over one reading. */
  lemma SelectOne(p: Pick)
    ensures Select([p]) == match p case Rejected => None case Skip => Some([]) case Chosen(n) => Some([n])
  {
    assert [p][..0] == [];
  }

  /** "00" is one clean entry, and int() reads it as 0. */
  lemma DoubleZeroEntry()
    ensures Entries("00") == ["00"]
    ensures ParseInt("00") == Some(0)
    ensures !IsAllKeyword("00")
  {
    SplitNoSep("00", ',');
    StripTrimmed("00");
    IntTrimDigits("00");
    assert WellFormedDigits("00");
    assert DigitsValue("00") == 0 by {
      assert "00"[..1] == "0";
      assert "0"[..0] == "";
    }
  }

  /** The selection as intended: every entry whose value is 0 is skipped, and
      only numbers 1..|cands| choose a network; nothing counts from the end. */
  function PickEntryIntended(cands: seq<Network>, entry: string): Pick
  {
    match ParseInt(entry)
    case None => Rejected
    case Some(k) =>
      if k == 0 then Skip
      else if 1 <= k <= |cands| then Chosen(cands[k - 1])
      else Rejected
  }

  function PicksIntended(cands: seq<Network>, entries: seq<string>): seq<Pick>
  {
    if entries == [] then []
    else PicksIntended(cands, entries[..|entries| - 1]) + [PickEntryIntended(cands, entries[|entries| - 1])]
  }

  /** The network prompt's answer under the intended reading. */
  function ParseSelectionIntended(cands: seq<Network>, input: string): Option<Table>
  {
    if IsAllKeyword(input) then Some(FromList(cands))
    else Select(PicksIntended(cands, Entries(input)))
  }

  /** The intended reading never wraps around: a chosen network is always the
      k-th candidate for the number k typed, with 1 <= k <= |cands|, and every
      spelling of zero is skipped; on answers made of in-range numbers it
      agrees with the code as written. */
  lemma IntendedSelectionSpec(cands: seq<Network>, entry: string)
    ensures PickEntryIntended(cands, entry).Chosen? ==>
      && ParseInt(entry).Some? && 1 <= ParseInt(entry).value <= |cands|
      && PickEntryIntended(cands, entry).network == cands[ParseInt(entry).value - 1]
    ensures ParseInt(entry) == Some(0) ==> PickEntryIntended(cands, entry) == Skip
    ensures ParseInt(entry).Some? && ParseInt(entry).value < 0 ==> PickEntryIntended(cands, entry) == Rejected
    ensures ParseInt(entry).Some? && 1 <= ParseInt(entry).value <= |cands| && entry != "0" ==>
      PickEntryIntended(cands, entry) == PickEntry(cands, entry)
  {
  }

  /** With the intended reading "00" selects nothing. */
  lemma DoubleZeroIntended(cands: seq<Network>)
    ensures ParseSelectionIntended(cands, "00") == Some([])
  {
    DoubleZeroEntry();
    OneEntry(cands, "00");
    SelectOne(Skip);
  }

  // ---------------------------------------------------------------------
  // The network prompt as a whole

  /** The names of some networks, in order: what the listing shows. */
  function Names(ns: seq<Network>): (r: seq<string>)
    ensures |r| == |ns| && forall k :: 0 <= k < |ns| ==> r[k] == ns[k].name
  {
    seq(|ns|, k requires 0 <= k < |ns| => ns[k].name)
  }

  /** promptSelectNetworks for one answer: the candidates (MX-filtered as
      configured, sorted by name) are listed, and the answer is read against
      that same sorted list. */
  function SelectNetworks(networks: seq<Network>, devices: seq<Device>, input: string): Option<Table>
  {
    ParseSelection(Candidates(networks, devices, FilterOnlyMxNetworks), input)
  }

  /** The number printed beside a network in the listing is the number that
      selects it: the k-th sorted candidate is listed as k, and typing k
      selects exactly that network. */
  lemma ListedNumberSelects(networks: seq<Network>, devices: seq<Device>, k: nat)
    requires 1 <= k <= |Candidates(networks, devices, FilterOnlyMxNetworks)|
    ensures var cs := Candidates(networks, devices, FilterOnlyMxNetworks);
      && Numbered(Names(cs))[k - 1] == Entry(k, cs[k - 1].name)
      && SelectNetworks(networks, devices, Numeral(k)) == Some([cs[k - 1]])
  {
    NumberSelects(Candidates(networks, devices, FilterOnlyMxNetworks), k);
  }

  /** Over any candidate list, the k-th candidate is listed as k and the
      answer k selects it alone. */
  lemma NumberSelects(cs: seq<Network>, k: nat)
    requires 1 <= k <= |cs|
    ensures Numbered(Names(cs))[k - 1] == Entry(k, cs[k - 1].name)
    ensures ParseSelection(cs, Numeral(k)) == Some([cs[k - 1]])
  {
    var ks := [k];
    var input := Numeral(k);
    assert Numerals(ks) == [input];
    SelectByNumerals(cs, ks, input);
    assert AtPositions(cs, ks) == [cs[k - 1]];
    SingleEntryTable(cs[k - 1]);
  }

  /** A table built from one network is that network alone. */
  lemma SingleEntryTable(n: Network)
    ensures FromList([n]) == [n]
  {
    assert [n][..0] == [];
  }

  /** Every network an entry chooses is a candidate. */
  lemma {:induction false} PickedFromCandidates(cands: seq<Network>, entries: seq<string>)
    ensures forall m :: m in Picked(Picks(cands, entries)) ==> m in cands
  {
    if entries != [] {
      var p := entries[..|entries| - 1];
      PickedFromCandidates(cands, p);
      var picks := Picks(cands, entries);
      assert picks[..|picks| - 1] == Picks(cands, p);
    }
  }

  /** Whatever the answer, only listed candidates are selected: networks of
      the organization that some device whose model contains "MX" belongs
      to. */
  lemma SelectNetworksChoosesCandidates(networks: seq<Network>, devices: seq<Device>, input: string)
    ensures var r := SelectNetworks(networks, devices, input);
      r.Some? ==> forall n :: n in r.value ==>
        && n in Candidates(networks, devices, FilterOnlyMxNetworks)
        && n in networks
        && exists d :: d in devices && d.networkId == n.id && Occurs(d.model, "MX")
  {
    var cs := Candidates(networks, devices, FilterOnlyMxNetworks);
    ConfiguredCandidates(networks, devices);
    if IsAllKeyword(input) {
      FromListMembers(cs);
    } else {
      var picks := Picks(cs, Entries(input));
      SelectSpec(picks);
      PickedFromCandidates(cs, Entries(input));
      FromListMembers(Picked(picks));
    }
  }
}
