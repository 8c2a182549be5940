/** Algorithm lists: printed by one side, split and matched by the other, independently on both. */
module Negotiation {
  import opened Prelude
  import opened Bytes
  import opened Buffers

  const MAX_PROPOSED_ALGO := 20
  const MAX_NAME_LEN := 64
  const LIST_BUFFER := 160
  const COMMA: Byte := 44
  const KEXGUESS2_ALGO_ID := 99

  type Name = seq<Byte>

  datatype Algo = Algo(name: Name, val: int, usable: bool)

  /** kexguess2@matt.ucc.asn.au */
  const KEXGUESS2_ALGO_NAME: Name :=
    [107, 101, 120, 103, 117, 101, 115, 115, 50, 64, 109, 97, 116, 116, 46, 117, 99, 99, 46, 97, 115, 110, 46, 97, 117]

  predicate Clean(n: Name) { n != [] && COMMA !in n && 0 !in n }

  /** A table of at most MAX_PROPOSED_ALGO entries with names a comma-separated list can carry. */
  predicate Table(algos: seq<Algo>) {
    |algos| <= MAX_PROPOSED_ALGO && forall i | 0 <= i < |algos| :: Clean(algos[i].name)
  }

  function Usable(algos: seq<Algo>): (r: seq<Name>)
    ensures |r| <= |algos|
  {
    if algos == [] then []
    else Usable(algos[..|algos| - 1]) + if algos[|algos| - 1].usable then [algos[|algos| - 1].name] else []
  }

  /** Names with commas between. */
  function Join(names: seq<Name>): seq<Byte> {
    if names == [] then []
    else if |names| == 1 then names[0]
    else Join(names[..|names| - 1]) + [COMMA] + names[|names| - 1]
  }

  lemma UsableSnoc(algos: seq<Algo>, i: nat)
    requires i < |algos|
    ensures Usable(algos[..i + 1]) == Usable(algos[..i]) + if algos[i].usable then [algos[i].name] else []
  {
    assert algos[..i + 1][..i] == algos[..i];
  }

  lemma JoinSnoc(names: seq<Name>, n: Name)
    ensures Join(names + [n]) == (if names == [] then [] else Join(names) + [COMMA]) + n
  {
    assert (names + [n])[..|names|] == names;
  }

  lemma {:induction false} JoinGrows(algos: seq<Algo>, i: nat)
    requires i <= |algos|
    ensures |Join(Usable(algos[..i]))| <= |Join(Usable(algos))|
    decreases |algos| - i
  {
    if i < |algos| {
      UsableSnoc(algos, i);
      JoinSnoc(Usable(algos[..i]), algos[i].name);
      assert Usable(algos[..i]) + [] == Usable(algos[..i]);
      JoinGrows(algos, i + 1);
    } else {
      assert algos[..i] == algos;
    }
  }

  /** buf_put_algolist: refused exactly when the list or the buffer is too small. */
  method BufPutAlgolist(buf: Buffer, algos: seq<Algo>) returns (ok: bool)
    requires buf.Valid()
    modifies buf, buf.data
    ensures buf.Valid() && buf.data == old(buf.data)
    ensures ok == (|Join(Usable(algos))| <= LIST_BUFFER
                   && old(buf.pos) + 4 + |Join(Usable(algos))| <= buf.data.Length)
    ensures ok ==> buf.Contents() == Overwrite(old(buf.Contents()), old(buf.pos), SshString(Join(Usable(algos))))
  {
    var algolist := new Buffer(LIST_BUFFER);
    ok := PutNames(algolist, algos);
    if ok { ok := buf.PutString(algolist.data[..algolist.len]); }
  }

  /** Its loop over the table. */
  method PutNames(algolist: Buffer, algos: seq<Algo>) returns (ok: bool)
    requires algolist.Valid() && algolist.data.Length == LIST_BUFFER && algolist.pos == algolist.len == 0
    modifies algolist, algolist.data
    ensures algolist.Valid() && algolist.data == old(algolist.data)
    ensures ok == (|Join(Usable(algos))| <= LIST_BUFFER)
    ensures ok ==> algolist.Contents() == Join(Usable(algos))
  {
    var i, donefirst := 0, false;
    while i < |algos|
      invariant 0 <= i <= |algos| && algolist.Valid() && algolist.data == old(algolist.data) && algolist.pos == algolist.len
      invariant algolist.Contents() == Join(Usable(algos[..i])) && donefirst == (Usable(algos[..i]) != [])
    {
      NextName(algos, i);
      if algos[i].usable {
        var put := PutName(algolist, donefirst, algos[i].name);
        if !put { return false; }
        donefirst := true;
      }
      i := i + 1;
    }
    assert algos[..i] == algos;
    return true;
  }

  lemma NextName(algos: seq<Algo>, i: nat)
    requires i < |algos|
    ensures algos[i].usable ==>
              Usable(algos[..i + 1]) != []
              && Join(Usable(algos[..i + 1]))
                 == Join(Usable(algos[..i])) + (if Usable(algos[..i]) != [] then [COMMA] else []) + algos[i].name
    ensures !algos[i].usable ==> Usable(algos[..i + 1]) == Usable(algos[..i])
    ensures |Join(Usable(algos[..i + 1]))| <= |Join(Usable(algos))|
  {
    UsableSnoc(algos, i);
    JoinGrows(algos, i + 1);
    JoinSnoc(Usable(algos[..i]), algos[i].name);
    assert Usable(algos[..i]) + [] == Usable(algos[..i]);
  }

  method PutName(b: Buffer, comma: bool, n: Name) returns (ok: bool)
    requires b.Valid() && b.pos == b.len
    modifies b, b.data
    ensures b.Valid() && b.data == old(b.data)
    ensures ok == (old(b.len) + (if comma then 1 else 0) + |n| <= b.data.Length)
    ensures ok ==> b.pos == b.len && b.Contents() == old(b.Contents()) + (if comma then [COMMA] else []) + n
  {
    ok := true;
    if comma {
      ok := b.PutByte(COMMA);
      if !ok { return; }
    }
    ok := b.PutBytes(n);
  }

  /** A C string stops at its first zero byte. */
  function UpToNul(s: seq<Byte>): seq<Byte> {
    if s == [] || s[0] == 0 then [] else [s[0]] + UpToNul(s[1..])
  }

  /** Splitting at commas: cur is the name under way, count how many names there are with it. */
  function Scan(s: seq<Byte>, cur: Name, count: nat): Option<seq<Name>> {
    if s == [] then Some([cur])
    else if s[0] == 0 then None
    else if s[0] != COMMA then Scan(s[1..], cur + [s[0]], count)
    else if count + 1 >= MAX_PROPOSED_ALGO then Some([cur, UpToNul(s[1..])])
    else
      match Scan(s[1..], [], count + 1)
      case None => None
      case Some(rest) => Some([cur] + rest)
  }

  /** The names in a received list: none when it is too long or holds a zero byte. */
  function Parse(list: seq<Byte>): Option<seq<Name>> {
    if |list| > MAX_PROPOSED_ALGO * (MAX_NAME_LEN + 1) then None else Scan(list, [], 1)
  }

  function Prepend(names: seq<Name>, o: Option<seq<Name>>): Option<seq<Name>> {
    if o.Some? then Some(names + o.value) else None
  }

  method SplitList(list: seq<Byte>) returns (names: Option<seq<Name>>)
    ensures names == Parse(list)
  {
    if |list| > MAX_PROPOSED_ALGO * (MAX_NAME_LEN + 1) { return None; }
    var done: seq<Name> := [];
    var start, i := 0, 0;
    assert list[0..] == list;
    assert forall o: seq<Name> {:trigger [] + o} :: [] + o == o;
    while i < |list|
      invariant 0 <= start <= i <= |list| && |done| + 1 < MAX_PROPOSED_ALGO
      invariant Scan(list, [], 1) == Prepend(done, Scan(list[i..], list[start..i], |done| + 1))
    {
      assert list[i..][0] == list[i] && list[i..][1..] == list[i + 1..];
      assert list[start..i] + [list[i]] == list[start..i + 1];
      if list[i] == 0 { return None; }
      if list[i] == COMMA {
        var cur := list[start..i];
        ghost var rest := Scan(list[i + 1..], [], |done| + 2);
        assert rest.Some? ==> done + ([cur] + rest.value) == (done + [cur]) + rest.value;
        done := done + [cur];
        start := i + 1;
        assert list[start..start] == [];
        if |done| + 1 >= MAX_PROPOSED_ALGO {
          names := Some(done + [UpToNul(list[start..])]);
          assert done + [UpToNul(list[start..])] == done[..|done| - 1] + [cur, UpToNul(list[i + 1..])];
          assert done[..|done| - 1] + [cur] == done;
          return;
        }
      }
      i := i + 1;
    }
    assert list[i..] == [] && list[start..i] == list[start..];
    return Some(done + [list[start..]]);
  }

  /** The letters of a clean name join the name under way. */
  lemma {:induction false} ScanName(n: Name, rest: seq<Byte>, cur: Name, count: nat)
    requires COMMA !in n && 0 !in n
    ensures Scan(n + rest, cur, count) == Scan(rest, cur + n, count)
  {
    if n == [] {
      assert n + rest == rest && cur + n == cur;
    } else {
      ScanName(n[1..], rest, cur + [n[0]], count);
      assert (n + rest)[1..] == n[1..] + rest && cur + [n[0]] + n[1..] == cur + n;
    }
  }

  /** Join, grown from the front. */
  lemma {:induction false} JoinFront(names: seq<Name>)
    requires |names| >= 2
    ensures Join(names) == names[0] + [COMMA] + Join(names[1..])
    decreases |names|
  {
    var init, last := names[..|names| - 1], names[|names| - 1];
    assert names[1..][..|names| - 2] == init[1..];
    if |names| > 2 {
      JoinFront(init);
      assert Join(names) == names[0] + [COMMA] + (Join(init[1..]) + [COMMA] + last);
    }
  }

  lemma {:induction false} ScanJoin(names: seq<Name>, count: nat)
    requires names != [] && count + |names| <= MAX_PROPOSED_ALGO + 1 && forall i | 0 <= i < |names| :: Clean(names[i])
    ensures Scan(Join(names), [], count) == Some(names)
    decreases |names|
  {
    var n := names[0];
    assert [] + n == n;
    if |names| == 1 {
      ScanName(n, [], [], count);
      assert n + [] == n && names == [n];
    } else {
      JoinFront(names);
      ScanFirst(n, Join(names[1..]), count);
      if count + 1 >= MAX_PROPOSED_ALGO {
        assert names == [n, names[1]];
        CleanUpToNul(names[1]);
      } else {
        ScanJoin(names[1..], count + 1);
        assert names == [n] + names[1..];
      }
    }
  }

  lemma ScanFirst(n: Name, rest: seq<Byte>, count: nat)
    requires COMMA !in n && 0 !in n
    ensures Scan(n + [COMMA] + rest, [], count)
         == if count + 1 >= MAX_PROPOSED_ALGO then Some([n, UpToNul(rest)]) else Prepend([n], Scan(rest, [], count + 1))
  {
    ScanName(n, [COMMA] + rest, [], count);
    assert n + [COMMA] + rest == n + ([COMMA] + rest) && [] + n == n && ([COMMA] + rest)[1..] == rest;
  }

  lemma {:induction false} CleanUpToNul(n: Name)
    requires 0 !in n
    ensures UpToNul(n) == n
  {
    if n != [] { CleanUpToNul(n[1..]); }
  }

  /** What was printed is what is read: the usable names, or one empty name when there are none. */
  lemma PrintedThenParsed(algos: seq<Algo>)
    requires Table(algos) && |Join(Usable(algos))| <= LIST_BUFFER
    ensures Parse(Join(Usable(algos))) == Some(if Usable(algos) == [] then [[]] else Usable(algos))
  {
    UsableClean(algos);
    if Usable(algos) != [] { ScanJoin(Usable(algos), 1); }
  }

  lemma {:induction false} UsableClean(algos: seq<Algo>)
    requires forall i | 0 <= i < |algos| :: Clean(algos[i].name)
    ensures forall i | 0 <= i < |Usable(algos)| :: Clean(Usable(algos)[i])
  {
    if algos != [] { UsableClean(algos[..|algos| - 1]); }
  }

  // ---------------------------------------------------------------- matching

  /** A list as buf_match_algo sees it: names, with nothing for an entry that may not be used. */
  type Names = seq<Option<Name>>

  function LocalNames(algos: seq<Algo>): (r: Names)
    ensures |r| == |algos|
  {
    seq(|algos|, i requires 0 <= i < |algos| => if algos[i].usable then Some(algos[i].name) else None)
  }

  function RemoteNames(names: seq<Name>): (r: Names)
    ensures |r| == |names|
  {
    seq(|names|, i requires 0 <= i < |names| => Some(names[i]))
  }

  datatype Pick = Pick(cli: nat, serv: nat)

  predicate Same(cli: Names, serv: Names, i: nat, j: nat)
    requires i < |cli| && j < |serv|
  {
    cli[i].Some? && serv[j].Some? && cli[i].value == serv[j].value
  }

  /** The client's first name that the server has, at its first place there. */
  predicate FirstPick(cli: Names, serv: Names, p: Pick) {
    && p.cli < |cli| && p.serv < |serv| && Same(cli, serv, p.cli, p.serv)
    && (forall i, j | 0 <= i < p.cli && 0 <= j < |serv| :: !Same(cli, serv, i, j))
    && (forall j | 0 <= j < p.serv :: !Same(cli, serv, p.cli, j))
  }

  predicate NoPick(cli: Names, serv: Names) {
    forall i, j | 0 <= i < |cli| && 0 <= j < |serv| :: !Same(cli, serv, i, j)
  }

  /** The two nested loops of buf_match_algo. */
  method FindPick(cli: Names, serv: Names) returns (p: Option<Pick>)
    ensures if p.Some? then FirstPick(cli, serv, p.value) else NoPick(cli, serv)
  {
    var i := 0;
    while i < |cli|
      invariant 0 <= i <= |cli|
      invariant forall i', j | 0 <= i' < i && 0 <= j < |serv| :: !Same(cli, serv, i', j)
    {
      var j := 0;
      while j < |serv|
        invariant 0 <= j <= |serv|
        invariant forall j' | 0 <= j' < j :: !Same(cli, serv, i, j')
      {
        if cli[i].Some? && serv[j].Some? && serv[j].value == cli[i].value {
          return Some(Pick(i, j));
        }
        j := j + 1;
      }
      i := i + 1;
    }
    return None;
  }

  datatype Guess2 = Look | No | Yes

  /** The name and value of the table entry returned, if any; the rule in use; and *goodguess. */
  datatype Matched = Matched(name: Option<Name>, val: int, guess2: Guess2, good: bool)

  /** Which guessing rule applies, once the peer's key exchange list has been seen. */
  function Rule(g: Guess2, remote: seq<Name>): Guess2 {
    if g != Look then g else if KEXGUESS2_ALGO_NAME in remote then Yes else No
  }

  predicate GoodPick(g: Guess2, p: Pick) {
    if g == Yes then p.cli == 0 else p.cli == 0 && p.serv == 0
  }

  /** What buf_match_algo must answer, for a table and the list received. */
  ghost predicate Answers(isServer: bool, algos: seq<Algo>, list: seq<Byte>, g: Guess2, m: Matched) {
    match Parse(list)
    case None => m == Matched(None, 0, g, false)
    case Some(remote) =>
      var cli := if isServer then RemoteNames(remote) else LocalNames(algos);
      var serv := if isServer then LocalNames(algos) else RemoteNames(remote);
      && m.guess2 == Rule(g, remote)
      && ((m.name == None && !m.good && NoPick(cli, serv))
          || exists p :: FirstPick(cli, serv, p) && m.name == cli[p.cli] && m.good == GoodPick(m.guess2, p)
                    && m.val == (if isServer then algos[p.serv] else algos[p.cli]).val)
  }

  /** buf_match_algo, for the lists whose guess matters; name and value are those of the table entry returned. */
  method BufMatchAlgo(isServer: bool, algos: seq<Algo>, list: seq<Byte>, g: Guess2) returns (m: Matched)
    requires |algos| <= MAX_PROPOSED_ALGO
    ensures Answers(isServer, algos, list, g, m)
  {
    var parsed := SplitList(list);
    if parsed.None? { return Matched(None, 0, g, false); }
    var remote := parsed.value;
    var g2 := g;
    if g == Look {
      var i := 0;
      while i < |remote| && g2 == Look
        invariant 0 <= i <= |remote| && g2 != No
        invariant g2 == Look ==> KEXGUESS2_ALGO_NAME !in remote[..i]
        invariant g2 == Yes ==> KEXGUESS2_ALGO_NAME in remote
        decreases |remote| - i, if g2 == Look then 1 else 0
      {
        if remote[i] == KEXGUESS2_ALGO_NAME { g2 := Yes; }
        i := i + 1;
      }
      assert g2 == Look ==> remote[..i] == remote;
      if g2 == Look { g2 := No; }
    }
    var local := LocalNames(algos);
    var cli, serv := if isServer then RemoteNames(remote) else local, if isServer then local else RemoteNames(remote);
    var p := FindPick(cli, serv);
    if p.None? { return Matched(None, 0, g2, false); }
    var good := if g2 == Yes then p.value.cli == 0 else p.value.cli == 0 && p.value.serv == 0;
    var entry := if isServer then algos[p.value.serv] else algos[p.value.cli];
    return Matched(Some(entry.name), entry.val, g2, good);
  }

  // ---------------------------------------------------------------- both sides agree

  /** The client's first name that the server has too. */
  function Chosen(c: seq<Name>, s: seq<Name>): Option<Name> {
    if c == [] then None else if c[0] in s then Some(c[0]) else Chosen(c[1..], s)
  }

  function Kept(ns: Names): seq<Name> {
    if ns == [] then [] else (if ns[0].Some? then [ns[0].value] else []) + Kept(ns[1..])
  }

  lemma {:induction false} KeptHas(ns: Names, n: Name)
    ensures n in Kept(ns) <==> exists i :: 0 <= i < |ns| && ns[i] == Some(n)
  {
    if ns != [] {
      KeptHas(ns[1..], n);
      if n in Kept(ns[1..]) {
        var i :| 0 <= i < |ns[1..]| && ns[1..][i] == Some(n);
        assert ns[i + 1] == Some(n);
      }
      if exists i :: 0 <= i < |ns| && ns[i] == Some(n) {
        var i :| 0 <= i < |ns| && ns[i] == Some(n);
        if i > 0 { assert ns[1..][i - 1] == Some(n); }
      }
    }
  }

  lemma {:induction false} KeptLocal(algos: seq<Algo>)
    ensures Kept(LocalNames(algos)) == Usable(algos)
    decreases |algos|
  {
    if algos != [] {
      var init, last := algos[..|algos| - 1], LocalNames(algos)[|algos| - 1];
      KeptLocal(init);
      assert LocalNames(algos) == LocalNames(init) + [last];
      KeptSnoc(LocalNames(init), last);
    }
  }

  lemma {:induction false} KeptSnoc(ns: Names, n: Option<Name>)
    ensures Kept(ns + [n]) == Kept(ns) + if n.Some? then [n.value] else []
  {
    if ns == [] {
      assert ns + [n] == [n] && [n][1..] == [];
    } else {
      KeptSnoc(ns[1..], n);
      assert (ns + [n])[1..] == ns[1..] + [n];
    }
  }

  lemma {:induction false} KeptRemote(names: seq<Name>)
    ensures Kept(RemoteNames(names)) == names
  {
    if names != [] {
      KeptRemote(names[1..]);
      assert RemoteNames(names)[1..] == RemoteNames(names[1..]);
    }
  }

  lemma KeptStep(cli: Names, serv: Names)
    requires cli != [] && forall j | 0 <= j < |serv| :: !Same(cli, serv, 0, j)
    ensures Chosen(Kept(cli), Kept(serv)) == Chosen(Kept(cli[1..]), Kept(serv))
  {
    if cli[0].Some? {
      KeptHas(serv, cli[0].value);
      if cli[0].value in Kept(serv) {
        var j :| 0 <= j < |serv| && serv[j] == Some(cli[0].value);
        assert Same(cli, serv, 0, j);
      }
      assert Kept(cli)[1..] == Kept(cli[1..]);
    } else {
      assert Kept(cli) == Kept(cli[1..]);
    }
  }

  /** Whatever the places, the pick is the chosen name. */
  lemma {:induction false} PickChooses(cli: Names, serv: Names, p: Pick)
    requires FirstPick(cli, serv, p)
    ensures Chosen(Kept(cli), Kept(serv)) == cli[p.cli]
    decreases p.cli
  {
    if p.cli == 0 {
      KeptHas(serv, cli[0].value);
      assert serv[p.serv] == Some(cli[0].value);
    } else {
      KeptStep(cli, serv);
      PickTail(cli, serv, p, p.cli - 1);
      PickChooses(cli[1..], serv, Pick(p.cli - 1, p.serv));
    }
  }

  lemma PickTail(cli: Names, serv: Names, p: Pick, k: nat)
    requires FirstPick(cli, serv, p) && p.cli == k + 1
    ensures FirstPick(cli[1..], serv, Pick(k, p.serv))
  {
    forall i, j | 0 <= i < k && 0 <= j < |serv| ensures !Same(cli[1..], serv, i, j) {
      assert !Same(cli, serv, i + 1, j);
    }
    forall j | 0 <= j < p.serv ensures !Same(cli[1..], serv, k, j) {
      assert !Same(cli, serv, p.cli, j);
    }
  }

  lemma {:induction false} NoPickChooses(cli: Names, serv: Names)
    requires NoPick(cli, serv)
    ensures Chosen(Kept(cli), Kept(serv)) == None
  {
    if cli != [] {
      KeptStep(cli, serv);
      forall i, j | 0 <= i < |cli[1..]| && 0 <= j < |serv| ensures !Same(cli[1..], serv, i, j) {
        assert !Same(cli, serv, i + 1, j);
      }
      NoPickChooses(cli[1..], serv);
    }
  }

  /** Names of the other side's table, as they come out of the list it prints. */
  function Heard(algos: seq<Algo>): seq<Name> { if Usable(algos) == [] then [[]] else Usable(algos) }

  lemma {:induction false} EmptyNameNeverChosen(c: seq<Name>, s: seq<Name>)
    requires forall i | 0 <= i < |c| :: Clean(c[i])
    ensures Chosen(c, [[]]) == None && Chosen([[]], c) == None && Chosen(c, []) == None
  {
    if c != [] { EmptyNameNeverChosen(c[1..], s); }
  }

  /** Each side on its own arrives at the client's first usable name that the server can use, or at none. */
  lemma BothChoose(client: seq<Algo>, server: seq<Algo>, gc: Guess2, gs: Guess2, mc: Matched, ms: Matched)
    requires Table(client) && Table(server)
    requires |Join(Usable(client))| <= LIST_BUFFER && |Join(Usable(server))| <= LIST_BUFFER
    requires Answers(false, client, Join(Usable(server)), gc, mc)
    requires Answers(true, server, Join(Usable(client)), gs, ms)
    ensures mc.name == ms.name == Chosen(Usable(client), Usable(server))
  {
    PrintedThenParsed(client);
    PrintedThenParsed(server);
    SideChooses(LocalNames(client), RemoteNames(Heard(server)), mc);
    SideChooses(RemoteNames(Heard(client)), LocalNames(server), ms);
    KeptLocal(client);
    KeptLocal(server);
    KeptRemote(Heard(client));
    KeptRemote(Heard(server));
    UsableClean(client);
    UsableClean(server);
    EmptyNameNeverChosen(Usable(client), []);
    EmptyNameNeverChosen(Usable(server), []);
  }

  lemma SideChooses(cli: Names, serv: Names, m: Matched)
    requires (m.name == None && NoPick(cli, serv)) || exists p :: FirstPick(cli, serv, p) && m.name == cli[p.cli]
    ensures m.name == Chosen(Kept(cli), Kept(serv))
  {
    if m.name == None && NoPick(cli, serv) {
      NoPickChooses(cli, serv);
    } else {
      var p :| FirstPick(cli, serv, p) && m.name == cli[p.cli];
      PickChooses(cli, serv, p);
    }
  }

  /** Whether the client's first entry is one the server can use. */
  predicate FirstShared(cli: Names, serv: Names) {
    cli != [] && cli[0].Some? && cli[0].value in Kept(serv)
  }

  lemma PickAtZero(cli: Names, serv: Names, m: Matched)
    requires m.guess2 == Yes
    requires (m.name == None && !m.good && NoPick(cli, serv))
             || exists p :: FirstPick(cli, serv, p) && m.name == cli[p.cli] && m.good == GoodPick(m.guess2, p)
    ensures m.good == FirstShared(cli, serv)
  {
    if cli != [] && cli[0].Some? { KeptHas(serv, cli[0].value); }
    if FirstShared(cli, serv) {
      var j :| 0 <= j < |serv| && serv[j] == Some(cli[0].value);
      assert Same(cli, serv, 0, j);
    }
    if m.good {
      var p :| FirstPick(cli, serv, p) && m.name == cli[p.cli] && m.good == GoodPick(m.guess2, p);
      assert serv[p.serv] == Some(cli[0].value);
    }
  }

  /** The condition under which both call a guess good or both call it bad: see GuessAgreesExactly. */
  predicate GuessClear(client: seq<Algo>, server: seq<Algo>) {
    Usable(client) == [] || client[0].usable || Usable(client)[0] !in Usable(server)
  }

  lemma {:induction false} UsableFirst(algos: seq<Algo>)
    requires algos != [] && algos[0].usable
    ensures Usable(algos) != [] && Usable(algos)[0] == algos[0].name
  {
    if |algos| > 1 { UsableFirst(algos[..|algos| - 1]); }
  }

  /** The first name of one list is a name of the other. */
  predicate FirstIn(c: seq<Name>, s: seq<Name>) { c != [] && c[0] in s }

  /** With kexguess2 in use, the client calls a guess good when its first entry is usable and the server's too. */
  lemma GuessOnClient(client: seq<Algo>, server: seq<Algo>, g: Guess2, m: Matched)
    requires Table(client) && Table(server) && |Join(Usable(server))| <= LIST_BUFFER
    requires Answers(false, client, Join(Usable(server)), g, m) && m.guess2 == Yes
    ensures m.good <==> client != [] && client[0].usable && FirstIn(Usable(client), Usable(server))
  {
    PrintedThenParsed(server);
    PickAtZero(LocalNames(client), RemoteNames(Heard(server)), m);
    KeptRemote(Heard(server));
    if client != [] && client[0].usable { UsableFirst(client); }
  }

  /** The server, when the first name it has been sent is one of its own. */
  lemma GuessOnServer(client: seq<Algo>, server: seq<Algo>, g: Guess2, m: Matched)
    requires Table(client) && Table(server) && |Join(Usable(client))| <= LIST_BUFFER
    requires Answers(true, server, Join(Usable(client)), g, m) && m.guess2 == Yes
    ensures m.good <==> FirstIn(Usable(client), Usable(server))
  {
    PrintedThenParsed(client);
    PickAtZero(RemoteNames(Heard(client)), LocalNames(server), m);
    KeptLocal(server);
    UsableClean(server);
  }

  /**
   * With kexguess2 in use on both sides they agree on the guess exactly when the client's first entry is
   * usable, or its first usable name is not one of the server's.
   */
  lemma GuessAgreesExactly(client: seq<Algo>, server: seq<Algo>, gc: Guess2, gs: Guess2, mc: Matched, ms: Matched)
    requires Table(client) && Table(server)
    requires |Join(Usable(client))| <= LIST_BUFFER && |Join(Usable(server))| <= LIST_BUFFER
    requires Answers(false, client, Join(Usable(server)), gc, mc) && mc.guess2 == Yes
    requires Answers(true, server, Join(Usable(client)), gs, ms) && ms.guess2 == Yes
    ensures mc.good == ms.good <==> GuessClear(client, server)
  {
    GuessOnClient(client, server, gc, mc);
    GuessOnServer(client, server, gs, ms);
  }

  /**
   * A client whose first entry x is disabled and which shares its second with the server: the client finds y
   * behind x and calls the guess bad, the server finds y first in the list and calls it good.
   */
  lemma GuessesDiffer(x: Name, y: Name, v: int) returns (mc: Matched, ms: Matched)
    requires Clean(x) && Clean(y) && |y| <= LIST_BUFFER
    ensures var client, server := [Algo(x, v, false), Algo(y, v, true)], [Algo(y, v, true)];
            && Table(client) && Table(server)
            && Answers(false, client, Join(Usable(server)), Yes, mc) && Answers(true, server, Join(Usable(client)), Yes, ms)
            && !mc.good && ms.good && !GuessClear(client, server)
  {
    var client, server := [Algo(x, v, false), Algo(y, v, true)], [Algo(y, v, true)];
    mc, ms := Matched(Some(y), v, Yes, false), Matched(Some(y), v, Yes, true);
    UsableSnoc(client, 0);
    UsableSnoc(client, 1);
    UsableSnoc(server, 0);
    assert client[..2] == client && server[..1] == server;
    assert Usable(client) == [y] && Usable(server) == [y];
    PrintedThenParsed(client);
    PrintedThenParsed(server);
    assert FirstPick(LocalNames(client), RemoteNames([y]), Pick(1, 0));
    assert FirstPick(RemoteNames([y]), LocalNames(server), Pick(0, 0));
  }

  /** In a table of key exchanges kexguess2 is an entry like any other, told apart by its value. */
  predicate KexTable(algos: seq<Algo>) {
    forall i | 0 <= i < |algos| :: algos[i].val == KEXGUESS2_ALGO_ID <==> algos[i].name == KEXGUESS2_ALGO_NAME
  }

  /** read_kex_algos gives up on the first list: nothing in common, or only the name that is no algorithm. */
  predicate KexRefused(m: Matched) { m.name == None || m.val == KEXGUESS2_ALGO_ID }

  lemma RefusedByName(isServer: bool, algos: seq<Algo>, list: seq<Byte>, g: Guess2, m: Matched)
    requires Answers(isServer, algos, list, g, m) && KexTable(algos)
    ensures KexRefused(m) <==> m.name == None || m.name == Some(KEXGUESS2_ALGO_NAME)
  {
    if Parse(list).Some? && m.name.Some? {
      var remote := RemoteNames(Parse(list).value);
      var cli, serv := if isServer then remote else LocalNames(algos), if isServer then LocalNames(algos) else remote;
      var p :| FirstPick(cli, serv, p) && m.name == cli[p.cli]
               && m.val == (if isServer then algos[p.serv] else algos[p.cli]).val;
      assert Same(cli, serv, p.cli, p.serv);
    }
  }

  /**
   * Both sides give up on the key exchange list alike: exactly when the client's first name that the server
   * has too is missing, or is the kexguess2 marker.
   */
  lemma KexRefusedAlike(client: seq<Algo>, server: seq<Algo>, gc: Guess2, gs: Guess2, mc: Matched, ms: Matched)
    requires Table(client) && Table(server) && KexTable(client) && KexTable(server)
    requires |Join(Usable(client))| <= LIST_BUFFER && |Join(Usable(server))| <= LIST_BUFFER
    requires Answers(false, client, Join(Usable(server)), gc, mc)
    requires Answers(true, server, Join(Usable(client)), gs, ms)
    ensures KexRefused(mc) <==> KexRefused(ms)
    ensures var c := Chosen(Usable(client), Usable(server));
            KexRefused(mc) <==> c == None || c == Some(KEXGUESS2_ALGO_NAME)
  {
    BothChoose(client, server, gc, gs, mc, ms);
    RefusedByName(false, client, Join(Usable(server)), gc, mc);
    RefusedByName(true, server, Join(Usable(client)), gs, ms);
  }

  // ---------------------------------------------------------------- the guessed packet

  /** The two tables a guess depends on. */
  datatype Tables = Tables(kex: seq<Algo>, hostkey: seq<Algo>)

  predicate Fits(t: Tables) {
    && Table(t.kex) && Table(t.hostkey)
    && |Join(Usable(t.kex))| <= LIST_BUFFER && |Join(Usable(t.hostkey))| <= LIST_BUFFER
  }

  /** read_kex_algos on the first two lists: the rule found on the first is used for the second. */
  ghost predicate ReadsGuess(isServer: bool, mine: Tables, theirs: Tables, kex: Matched, hostkey: Matched) {
    && Answers(isServer, mine.kex, Join(Usable(theirs.kex)), Look, kex)
    && Answers(isServer, mine.hostkey, Join(Usable(theirs.hostkey)), kex.guess2, hostkey)
  }

  /** Offered: the rule is in use on a side exactly when the other side offers kexguess2. */
  lemma RuleOffered(isServer: bool, mine: Tables, theirs: Tables, kex: Matched, hostkey: Matched)
    requires Fits(mine) && Fits(theirs) && ReadsGuess(isServer, mine, theirs, kex, hostkey)
    ensures kex.guess2 == hostkey.guess2 == if KEXGUESS2_ALGO_NAME in Usable(theirs.kex) then Yes else No
  {
    PrintedThenParsed(theirs.kex);
    PrintedThenParsed(theirs.hostkey);
    assert KEXGUESS2_ALGO_NAME != [];
  }

  /** The first usable names of the client in both lists are names of the server. */
  predicate GuessShared(client: Tables, server: Tables) {
    FirstIn(Usable(client.kex), Usable(server.kex)) && FirstIn(Usable(client.hostkey), Usable(server.hostkey))
  }

  /** Nothing shared, or both first entries of the client usable. */
  predicate BothClear(client: Tables, server: Tables) {
    GuessShared(client, server) ==> client.kex[0].usable && client.hostkey[0].usable
  }

  /** The verdicts of both sides on a guess, over the two lists. */
  lemma GuessVerdicts(client: Tables, server: Tables, ck: Matched, ch: Matched, sk: Matched, sh: Matched)
    requires Fits(client) && Fits(server)
    requires ReadsGuess(false, client, server, ck, ch) && ReadsGuess(true, server, client, sk, sh)
    requires KEXGUESS2_ALGO_NAME in Usable(client.kex) && KEXGUESS2_ALGO_NAME in Usable(server.kex)
    ensures sk.good && sh.good <==> GuessShared(client, server)
    ensures ck.good && ch.good
            <==> GuessShared(client, server) && client.kex[0].usable && client.hostkey[0].usable
  {
    RuleOffered(false, client, server, ck, ch);
    RuleOffered(true, server, client, sk, sh);
    GuessOnClient(client.kex, server.kex, Look, ck);
    GuessOnClient(client.hostkey, server.hostkey, ck.guess2, ch);
    GuessOnServer(client.kex, server.kex, Look, sk);
    GuessOnServer(client.hostkey, server.hostkey, sk.guess2, sh);
  }

  /**
   * With kexguess2 offered both ways the server throws the guessed packet away (ignorenext) as the client sends
   * another one (our_first_follows_matches unset), or both do neither, exactly when the client's first usable
   * names are not both the server's, or both its first entries are usable.
   */
  lemma IgnoredIffResent(client: Tables, server: Tables, ck: Matched, ch: Matched, sk: Matched, sh: Matched)
    requires Fits(client) && Fits(server)
    requires ReadsGuess(false, client, server, ck, ch) && ReadsGuess(true, server, client, sk, sh)
    requires KEXGUESS2_ALGO_NAME in Usable(client.kex) && KEXGUESS2_ALGO_NAME in Usable(server.kex)
    ensures var ignored := !(sk.good && sh.good);
            var resent := !(ck.good && ch.good);
            ignored == resent <==> BothClear(client, server)
  {
    GuessVerdicts(client, server, ck, ch, sk, sh);
  }

  /** Where the first usable entry stands, or the end. */
  function Lead(algos: seq<Algo>): (k: nat)
    ensures k <= |algos| && (k < |algos| ==> algos[k].usable) && forall i | 0 <= i < k :: !algos[i].usable
  {
    if algos == [] || algos[0].usable then 0 else 1 + Lead(algos[1..])
  }

  lemma {:induction false} KeptLead(ns: Names, k: nat)
    requires k < |ns| && ns[k].Some? && forall i | 0 <= i < k :: ns[i].None?
    ensures Kept(ns) != [] && Kept(ns)[0] == ns[k].value
  {
    if k > 0 { KeptLead(ns[1..], k - 1); }
  }

  /** When the client's first usable name is one of the server's, the client settles on that entry. */
  lemma {:induction false} LeadChosen(client: seq<Algo>, server: seq<Algo>, g: Guess2, m: Matched)
    requires Table(client) && Table(server) && |Join(Usable(server))| <= LIST_BUFFER
    requires Answers(false, client, Join(Usable(server)), g, m) && FirstIn(Usable(client), Usable(server))
    ensures Lead(client) < |client| && m.name == Some(client[Lead(client)].name) && m.val == client[Lead(client)].val
  {
    var cli, serv, k := LocalNames(client), RemoteNames(Heard(server)), Lead(client);
    PrintedThenParsed(server);
    KeptLocal(client);
    KeptRemote(Heard(server));
    LeadIs(client);
    KeptHas(serv, client[k].name);
    var j :| 0 <= j < |serv| && serv[j] == Some(client[k].name);
    assert Same(cli, serv, k, j);
    var p :| FirstPick(cli, serv, p) && m.name == cli[p.cli] && m.val == client[p.cli].val;
    PickFirst(cli, serv, p, k, j);
  }

  /** A pick is the first of the client's names that is there at all, when the server has it. */
  lemma PickFirst(cli: Names, serv: Names, p: Pick, k: nat, j: nat)
    requires FirstPick(cli, serv, p) && k < |cli| && j < |serv| && Same(cli, serv, k, j)
    requires forall i | 0 <= i < k :: cli[i].None?
    ensures p.cli == k
  {
    assert Same(cli, serv, p.cli, p.serv);
  }

  lemma {:induction false} LeadIs(algos: seq<Algo>)
    requires Usable(algos) != []
    ensures Lead(algos) < |algos| && Usable(algos)[0] == algos[Lead(algos)].name
  {
    var ns := LocalNames(algos);
    KeptLocal(algos);
    KeptHas(ns, Usable(algos)[0]);
    var i :| 0 <= i < |ns| && ns[i] == Some(Usable(algos)[0]);
    KeptLead(ns, Lead(algos));
  }
}
