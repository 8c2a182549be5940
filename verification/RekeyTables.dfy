/** Which tables of algorithms let a guess end a session, from what each side reads out of the other's lists. */
module RekeyTables {
  import opened Rekey
  import opened RekeyKeeps
  import opened RekeyPair
  import opened RekeyAnswers
  import opened RekeyRun
  import N = Negotiation

  /** What read_kex_algos finds in the first two lists. */
  datatype Read = Read(kex: N.Matched, hostkey: N.Matched) {
    /** allgood, as the two lists leave it. */
    predicate Good() { kex.good && hostkey.good }

    /** No key exchange method or host key in common. */
    predicate GivesUp() { N.KexRefused(kex) || hostkey.name.None? }
  }

  /** The verdict and the method are the lists'; the other lists may still have nothing in common. */
  predicate FromLists(r: Read, env: KexEnv) {
    env.allgood == r.Good() && env.algo == r.kex.val && (env.matches ==> !r.GivesUp())
  }

  /** Every KEXINIT of the run is read so: c on the client, s on the server. */
  ghost predicate ReadWith(c: Read, s: Read, steps: seq<Step>) {
    forall i | 0 <= i < |steps| :: FromLists(if steps[i].onClient then c else s, steps[i].env.handler.kex)
  }

  /** The deal these readings make, wherever a side does not give up. */
  predicate Makes(c: Read, s: Read, deal: Deal, n: nat) {
    && (c.GivesUp() || deal.client(n) == c.Good()) && (s.GivesUp() || deal.server(n) == s.Good())
    && (deal.reuse ==> c.kex.val == DH_GROUP1)
  }

  lemma {:induction false} ReadDeals(c: Read, s: Read, deal: Deal, p: Pair, steps: seq<Step>)
    requires ReadWith(c, s, steps) && forall n: nat :: Makes(c, s, deal, n)
    ensures RunDeals(deal, p, steps)
    decreases |steps|
  {
    if steps != [] {
      var st := steps[0];
      assert FromLists(if st.onClient then c else s, st.env.handler.kex);
      assert Makes(c, s, deal, See(deal, p.s.tx.out[..if p.gotC <= |p.s.tx.out| then p.gotC else 0]).n);
      assert Makes(c, s, deal, See(deal, p.c.tx.out[..if p.gotS <= |p.c.tx.out| then p.gotS else 0]).n);
      if Take(p, st).Next? {
        forall i | 0 <= i < |steps[1..]| ensures steps[1..][i] == steps[i + 1] {
        }
        ReadDeals(c, s, deal, Take(p, st).pair, steps[1..]);
      }
    }
  }

  /** The server does not keep a guess that the client replaces, or no exchange comes about at all. */
  predicate KeepsPace(c: Read, s: Read) { c.GivesUp() || s.GivesUp() || (s.Good() ==> c.Good()) }

  /** Two programs, each with a reading of the other's lists, over any number of exchanges. */
  ghost predicate NoRunEnds(c: Read, s: Read, draw: nat, onClient: bool, why: Why) {
    forall steps | ReadWith(c, s, steps) && SafeSteps(steps) :: Run(Opened(true, draw), steps) != Ends(onClient, why)
  }

  lemma PaceKept(c: Read, s: Read, draw: nat, steps: seq<Step>)
    requires KeepsPace(c, s) && ReadWith(c, s, steps) && SafeSteps(steps)
    ensures var v := Run(Opened(true, draw), steps);
            v.Ends? ==> v.why != BadSignature && (v.onClient || v.why != UnexpectedPacket(KEXDH_INIT))
  {
    var good := if c.GivesUp() then s.Good() else c.Good();
    var deal := Deal(n => good, n => if s.GivesUp() then good else s.Good(), false);
    assert forall n: nat :: Makes(c, s, deal, n);
    ReadDeals(c, s, deal, Opened(true, draw), steps);
    RepliesAnswer(deal, true, draw, steps);
  }

  lemma SameMethod(c: Read, s: Read, draw: nat, steps: seq<Step>)
    requires c.kex.val == DH_GROUP1 && ReadWith(c, s, steps) && SafeSteps(steps)
    ensures var v := Run(Opened(true, draw), steps); v.Ends? ==> v.why != BadSignature
  {
    var deal := Deal(n => c.Good(), n => s.Good(), true);
    assert forall n: nat :: Makes(c, s, deal, n);
    ReadDeals(c, s, deal, Opened(true, draw), steps);
    RepliesAnswer(deal, true, draw, steps);
  }

  /**
   * No session with a guess ends over the host key signature, exactly when the server keeps no guess that the
   * client replaces, or the client settles on the method it guessed and so offers the same value again.
   */
  lemma SignatureExactly(c: Read, s: Read, draw: nat)
    ensures NoRunEnds(c, s, draw, true, BadSignature) <==> KeepsPace(c, s) || c.kex.val == DH_GROUP1
  {
    if KeepsPace(c, s) || c.kex.val == DH_GROUP1 {
      forall steps | ReadWith(c, s, steps) && SafeSteps(steps)
        ensures Run(Opened(true, draw), steps) != Ends(true, BadSignature)
      {
        if KeepsPace(c, s) { PaceKept(c, s, draw, steps); } else { SameMethod(c, s, draw, steps); }
      }
    } else {
      var client, server := ClientBad(c.kex.val, draw + 1, 0), ServerGood(s.kex.val, draw, 0);
      DisagreementEnds(c.kex.val, s.kex.val, draw, draw + 1, 0);
      assert ReadWith(c, s, [client, server, server, client]);
    }
  }

  /** None ends over a KEXDH_INIT the server has no more use for, exactly when it keeps no guess that is replaced. */
  lemma SecondInitExactly(c: Read, s: Read, draw: nat)
    ensures NoRunEnds(c, s, draw, false, UnexpectedPacket(KEXDH_INIT)) <==> KeepsPace(c, s)
  {
    if KeepsPace(c, s) {
      forall steps | ReadWith(c, s, steps) && SafeSteps(steps)
        ensures Run(Opened(true, draw), steps) != Ends(false, UnexpectedPacket(KEXDH_INIT))
      {
        PaceKept(c, s, draw, steps);
      }
    } else {
      var client, server := ClientBad(c.kex.val, draw + 1, 0), ServerGood(s.kex.val, draw, 0);
      SecondInitEnds(c.kex.val, s.kex.val, draw, draw + 1, 0);
      assert ReadWith(c, s, [client, server, server, server]);
    }
  }

  // ---------------------------------------------------------------- from the tables

  /** Tables the two programs can print, kexguess2 offered both ways; the client guesses the method of its first entry. */
  predicate Guessing(client: N.Tables, server: N.Tables) {
    && N.Fits(client) && N.Fits(server) && N.KexTable(client.kex) && N.KexTable(server.kex)
    && N.KEXGUESS2_ALGO_NAME in N.Usable(client.kex) && N.KEXGUESS2_ALGO_NAME in N.Usable(server.kex)
    && client.kex[0].val == DH_GROUP1
  }

  /** c and s are what each side reads in the lists the other prints. */
  ghost predicate Reading(client: N.Tables, server: N.Tables, c: Read, s: Read) {
    N.ReadsGuess(false, client, server, c.kex, c.hostkey) && N.ReadsGuess(true, server, client, s.kex, s.hostkey)
  }

  /** The method the client settles on when its first usable name is shared. */
  function LeadMethod(client: N.Tables): int
    requires N.Lead(client.kex) < |client.kex|
  {
    client.kex[N.Lead(client.kex)].val
  }

  lemma TablesPace(client: N.Tables, server: N.Tables, c: Read, s: Read)
    requires Guessing(client, server) && Reading(client, server, c, s)
    ensures N.Lead(client.kex) < |client.kex|
    ensures KeepsPace(c, s) <==> N.BothClear(client, server) || LeadMethod(client) == N.KEXGUESS2_ALGO_ID
    ensures N.GuessShared(client, server) ==> c.kex.val == LeadMethod(client)
  {
    N.LeadIs(client.kex);
    N.GuessVerdicts(client, server, c.kex, c.hostkey, s.kex, s.hostkey);
    if N.GuessShared(client, server) {
      N.LeadChosen(client.kex, server.kex, N.Look, c.kex);
      N.LeadChosen(client.hostkey, server.hostkey, c.kex.guess2, c.hostkey);
      N.KexRefusedAlike(client.kex, server.kex, N.Look, N.Look, c.kex, s.kex);
      N.BothChoose(client.hostkey, server.hostkey, c.kex.guess2, s.kex.guess2, c.hostkey, s.hostkey);
    }
  }

  /**
   * From the tables: a session with a guess can end over the host key signature exactly when the client's first
   * usable names are both the server's, one of its first entries is not usable, and the method of its first
   * usable entry is another than the one guessed, and one at all.
   */
  lemma TablesAnswer(client: N.Tables, server: N.Tables, c: Read, s: Read, draw: nat)
    requires Guessing(client, server) && Reading(client, server, c, s) && N.Lead(client.kex) < |client.kex|
    ensures NoRunEnds(c, s, draw, true, BadSignature)
            <==> N.BothClear(client, server) || LeadMethod(client) == DH_GROUP1 || LeadMethod(client) == N.KEXGUESS2_ALGO_ID
  {
    TablesPace(client, server, c, s);
    SignatureExactly(c, s, draw);
  }

  /** And over a second KEXDH_INIT exactly when that method, the one guessed or not, is one at all. */
  lemma TablesRefuse(client: N.Tables, server: N.Tables, c: Read, s: Read, draw: nat)
    requires Guessing(client, server) && Reading(client, server, c, s) && N.Lead(client.kex) < |client.kex|
    ensures NoRunEnds(c, s, draw, false, UnexpectedPacket(KEXDH_INIT))
            <==> N.BothClear(client, server) || LeadMethod(client) == N.KEXGUESS2_ALGO_ID
  {
    TablesPace(client, server, c, s);
    SecondInitExactly(c, s, draw);
  }
}
