/** The records the utility passes around: networks, the name -> id table of
    target networks (an insertion-ordered dictionary), users, gateway
    outcomes and the per-operation status records of a batch. */
module Records {
  import opened Text

  /** A dashboard network, as listed by the organization's network listing. */
  datatype Network = Network(name: string, id: string)

  /** An insertion-ordered dictionary from network name to network id, kept as
      its list of entries. It stands for a Python dict only when its names are
      unique (UniqueNames); Put and FromList keep them so. */
  type Table = seq<Network>

  ghost predicate UniqueNames(t: Table)
  {
    forall i, j :: 0 <= i < j < |t| ==> t[i].name != t[j].name
  }

  /** `table[name]`, or None when the key is absent. */
  function Get(t: Table, name: string): Option<string>
  {
    if t == [] then None
    else if t[0].name == name then Some(t[0].id)
    else Get(t[1..], name)
  }

  /** A key is absent exactly when no entry carries it. */
  lemma {:induction false} GetAbsent(t: Table, name: string)
    ensures Get(t, name).None? <==> forall i :: 0 <= i < |t| ==> t[i].name != name
  {
    if t != [] {
      GetAbsent(t[1..], name);
      assert forall i :: 0 < i < |t| ==> t[i] == t[1..][i - 1];
    }
  }

  /** Looking up the name of an entry of a dictionary gives that entry's id. */
  lemma {:induction false} GetEntry(t: Table, i: nat)
    requires UniqueNames(t) && i < |t|
    ensures Get(t, t[i].name) == Some(t[i].id)
  {
    if i > 0 {
      GetEntry(t[1..], i - 1);
    }
  }

  /** `table[n.name] = n.id`: a new key goes to the end, an existing key keeps
      its place and takes the new value. */
  function Put(t: Table, n: Network): (r: Table)
    ensures Get(t, n.name).Some? ==> |r| == |t|
    ensures Get(t, n.name).None? ==> r == t + [n]
  {
    if t == [] then [n]
    else if t[0].name == n.name then [n] + t[1..]
    else [t[0]] + Put(t[1..], n)
  }

  /** After the update the key maps to the new id and every other key is
      unaffected. */
  lemma {:induction false} PutGet(t: Table, n: Network)
    ensures Get(Put(t, n), n.name) == Some(n.id)
    ensures forall x :: x != n.name ==> Get(Put(t, n), x) == Get(t, x)
  {
    if t != [] && t[0].name != n.name {
      PutGet(t[1..], n);
    }
  }

  /** The update keeps the keys already present, in their order. */
  lemma {:induction false} PutKeepsKeys(t: Table, n: Network)
    ensures forall i :: 0 <= i < |t| ==> Put(t, n)[i].name == t[i].name
  {
    if t != [] && t[0].name != n.name {
      PutKeepsKeys(t[1..], n);
    }
  }

  /** The update keeps keys unique. */
  lemma PutUnique(t: Table, n: Network)
    requires UniqueNames(t)
    ensures UniqueNames(Put(t, n))
  {
    PutKeepsKeys(t, n);
    GetAbsent(t, n.name);
  }

  /** The update holds only the old entries and the new one. */
  lemma {:induction false} PutMembers(t: Table, n: Network)
    ensures forall m :: m in Put(t, n) ==> m in t || m == n
  {
    if t != [] && t[0].name != n.name {
      PutMembers(t[1..], n);
    }
  }

  /** The dictionary built from a list of (name, id) pairs in order, as a
      Python dict comprehension builds it: later pairs overwrite earlier ones. */
  function FromList(s: seq<Network>): Table
  {
    if s == [] then [] else Put(FromList(s[..|s| - 1]), s[|s| - 1])
  }

  /** The id of the last entry of s named x. */
  function LastId(s: seq<Network>, x: string): Option<string>
  {
    if s == [] then None
    else if s[|s| - 1].name == x then Some(s[|s| - 1].id)
    else LastId(s[..|s| - 1], x)
  }

  /** The dictionary built from a list maps exactly the list's names, each to
      the id of its last occurrence, and has unique keys. */
  lemma {:induction false} FromListSpec(s: seq<Network>)
    ensures forall x :: Get(FromList(s), x) == LastId(s, x)
    ensures UniqueNames(FromList(s))
  {
    if s != [] {
      var p := s[..|s| - 1];
      FromListSpec(p);
      PutGet(FromList(p), s[|s| - 1]);
      PutUnique(FromList(p), s[|s| - 1]);
    }
  }

  /** Every entry of the dictionary built from a list is one of the list's pairs. */
  lemma {:induction false} FromListMembers(s: seq<Network>)
    ensures forall m :: m in FromList(s) ==> m in s
  {
    if s != [] {
      FromListMembers(s[..|s| - 1]);
      PutMembers(FromList(s[..|s| - 1]), s[|s| - 1]);
    }
  }

  /** A name has a last occurrence exactly when it occurs. */
  lemma {:induction false} LastIdPresent(s: seq<Network>, x: string)
    ensures LastId(s, x).Some? <==> exists i :: 0 <= i < |s| && s[i].name == x
  {
    if s != [] {
      var p := s[..|s| - 1];
      LastIdPresent(p, x);
      if exists i :: 0 <= i < |s| && s[i].name == x {
        var i :| 0 <= i < |s| && s[i].name == x;
        if i < |s| - 1 {
          assert p[i].name == x;
        }
      }
    }
  }

  /** When the names are already unique the dictionary is the list itself. */
  lemma {:induction false} FromListUnique(s: seq<Network>)
    requires UniqueNames(s)
    ensures FromList(s) == s
  {
    if s != [] {
      var p := s[..|s| - 1];
      FromListUnique(p);
      GetAbsent(p, s[|s| - 1].name);
      assert s == p + [s[|s| - 1]];
    }
  }

  /** A dashboard organization. */
  datatype Org = Org(id: string, name: string)

  /** One user to provision or deactivate. The display name is absent for
      deactivation; the password is always filled in (typed, read from the
      file, or generated). */
  datatype User = User(username: Option<string>, email: string, password: string)

  /** The error carried by a failed operation: an API error, whose text is the
      first entry of its message's error list, or a plain message. */
  datatype ErrorInfo = ApiError(firstError: string) | Message(text: string)

  /** What a gateway mutation (create or delete a user) reports. */
  datatype Outcome = Succeeded | Failed(error: ErrorInfo)

  /** One line of the batch's final status: network name (or "ALL"), the
      user's name as recorded, the password echoed back, success, error. */
  datatype Status = Status(network: string, username: Option<string>, password: string,
                           success: bool, error: ErrorInfo)

  /** A status record's success flag and error as the gateway reported them;
      a success carries the empty error string. */
  function Report(o: Outcome): (bool, ErrorInfo)
  {
    match o
    case Succeeded => (true, Message(""))
    case Failed(e) => (false, e)
  }
}
