/**
 * When a client uses an object that is not there. The key of its certificate
 * is kept by the state that sends the certificate, and used by the one that
 * proves it, and each asks anew whether a certificate is configured. Against
 * any peer and with certificates that come and go, the client crashes exactly
 * if there was none at the first and there is one at the second.
 */
module LateCertificate {
  import opened Bytes
  import opened HandshakeTypes
  import opened HandshakeClient

  /** Where a run stands before its i-th round. */
  ghost function Before(c: Client, ins: seq<Input>, i: nat): Result
    requires i <= |ins|
  {
    Run(c, Ok, ins[..i])
  }

  /** A certificate was requested, none was configured, and the client went on. */
  ghost predicate WentOnWithout(c: Client, ins: seq<Input>, i: nat) {
    && i < |ins| && Live(Before(c, ins, i))
    && var c0 := Before(c, ins, i).c;
       c0.state == SendClientCertificate && c0.f.certRequest && !ins[i].e.hasCert && Turn(c0, ins[i]).wait == Ok
  }

  /** The client is to prove its certificate: one is configured, and nothing fails before its key is used. */
  ghost predicate ProvesAt(c: Client, ins: seq<Input>, j: nat) {
    && j < |ins| && Live(Before(c, ins, j))
    && Before(c, ins, j).c.state == SendClientCertificateVerify && ins[j].e.hasCert && !ins[j].e.fail
  }

  // Once it has gone on without a certificate, a client has no key until the state that would use it

  predicate Keyless(c: Client) {
    (c.state.SendClientKeyExchange? || c.state.SendClientCertificateVerify?) && c.f.certRequest && !c.own.localPubkey
  }

  /** Past the state that proves the certificate, for good. */
  predicate Beyond(c: Client) {
    Flights(c.state) || Lasts(c.state) || c.state == Done
  }

  lemma GoesOnKeyless(c: Client, e: Env)
    requires Held(c) && c.state == SendClientCertificate
    ensures var r := DoSendClientCertificate(c, e);
            r.wait == Ok ==> r.c.state == SendClientKeyExchange && r.c.f.certRequest == c.f.certRequest
                             && (c.f.certRequest ==> r.c.own.localPubkey == e.hasCert)
  {
  }

  lemma KeylessStays(c: Client, m: Option<Msg>, e: Env)
    requires Keyless(c)
    ensures var r := Step(c, m, e); r.wait == Error || r.wait == Crash || Keyless(r.c) || Beyond(r.c)
  {
  }

  lemma PastLate(c: Client, m: Option<Msg>, e: Env)
    requires Flights(c.state)
    ensures var r := Step(c, m, e); r.wait == Error || r.wait == Crash || Beyond(r.c)
  {
  }

  lemma PastLast(c: Client, m: Option<Msg>, e: Env)
    requires Lasts(c.state)
    ensures var r := Step(c, m, e); r.wait == Error || r.wait == Crash || Beyond(r.c)
  {
  }

  lemma TurnStays(c: Client, x: Input)
    requires (Keyless(c) || Beyond(c)) && c.state != Done
    ensures var r := Turn(c, x); r.wait == Error || r.wait == Crash || Keyless(r.c) || Beyond(r.c)
  {
    var m := if c.state == ProcessChangeCipherSpec then None else Message(x.item);
    TurnIsStep(c, x, m);
    if Keyless(c) {
      KeylessStays(c, m, x.e);
    } else if Flights(c.state) {
      PastLate(c, m, x.e);
    } else {
      PastLast(c, m, x.e);
    }
  }

  lemma BeforeNext(c: Client, ins: seq<Input>, i: nat)
    requires i < |ins| && Live(Before(c, ins, i))
    ensures var r := Turn(Before(c, ins, i).c, ins[i]); Before(c, ins, i + 1) == Stop(r.c, r.wait)
  {
    RunSnoc(c, Ok, ins[..i], ins[i]);
    assert ins[..i] + [ins[i]] == ins[..i + 1];
  }

  lemma LiveBefore(c: Client, ins: seq<Input>, i: nat, j: nat)
    requires i <= j <= |ins| && Live(Before(c, ins, j))
    ensures Live(Before(c, ins, i))
  {
    if !Live(Before(c, ins, i)) {
      assert ins[..j][..i] == ins[..i];
      EndedStays(c, Ok, ins[..j], i);
    }
  }

  lemma {:induction false} StaysKeyless(c: Client, ins: seq<Input>, i: nat, j: nat)
    requires i <= j <= |ins| && Live(Before(c, ins, j)) && (Keyless(Before(c, ins, i).c) || Beyond(Before(c, ins, i).c))
    ensures Keyless(Before(c, ins, j).c) || Beyond(Before(c, ins, j).c)
    decreases j - i
  {
    if i < j {
      LiveBefore(c, ins, i, j);
      LiveBefore(c, ins, i + 1, j);
      BeforeNext(c, ins, i);
      TurnStays(Before(c, ins, i).c, ins[i]);
      StaysKeyless(c, ins, i + 1, j);
    }
  }

  // A client without a key has gone on without a certificate

  lemma BecomesKeyless(c: Client, m: Option<Msg>, e: Env)
    requires Held(c) && !Keyless(c) && c.state != Done
    ensures var r := Step(c, m, e);
            r.wait != Error && r.wait != Crash && Keyless(r.c) ==>
              c.state == SendClientCertificate && c.f.certRequest && !e.hasCert && r.wait == Ok
  {
    if Hellos(c.state) {
      HelloKeeps(c, m, e);
    } else if Keys(c.state) {
      KeyKeeps(c, m, e);
    } else if Flights(c.state) {
      PastLate(c, m, e);
    } else {
      PastLast(c, m, e);
    }
  }

  lemma HelloKeeps(c: Client, m: Option<Msg>, e: Env)
    requires Hellos(c.state)
    ensures var r := Step(c, m, e); r.wait == Error || r.wait == Crash || !Keyless(r.c)
  {
  }

  lemma KeyKeeps(c: Client, m: Option<Msg>, e: Env)
    requires Held(c) && !Keyless(c) && Keys(c.state)
    ensures var r := Step(c, m, e);
            r.wait != Error && r.wait != Crash && Keyless(r.c) ==>
              c.state == SendClientCertificate && c.f.certRequest && !e.hasCert && r.wait == Ok
  {
  }

  lemma TurnBecomesKeyless(c: Client, x: Input)
    requires Held(c) && !Keyless(c) && c.state != Done
    ensures var r := Turn(c, x);
            r.wait != Error && r.wait != Crash && Keyless(r.c) ==>
              c.state == SendClientCertificate && c.f.certRequest && !x.e.hasCert && r.wait == Ok
  {
    var m := if c.state == ProcessChangeCipherSpec then None else Message(x.item);
    TurnIsStep(c, x, m);
    BecomesKeyless(c, m, x.e);
  }

  lemma {:induction false} KeylessSince(c: Client, ins: seq<Input>, j: nat) returns (i: nat)
    requires Initial(c) && j <= |ins| && Live(Before(c, ins, j)) && Keyless(Before(c, ins, j).c)
    ensures i < j && WentOnWithout(c, ins, i)
    decreases j
  {
    if j == 0 {
      assert false;
    } else {
      LiveBefore(c, ins, j - 1, j);
      BeforeNext(c, ins, j - 1);
      var c0 := Before(c, ins, j - 1).c;
      InitialHolds(c, false);
      RunKeepsInv(c, Ok, ins[..j - 1]);
      if Keyless(c0) {
        i := KeylessSince(c, ins, j - 1);
      } else {
        TurnBecomesKeyless(c0, ins[j - 1]);
        i := j - 1;
      }
    }
  }

  // Exactly when the client crashes

  lemma {:induction false} CrashAt(c: Client, ins: seq<Input>) returns (j: nat)
    requires Initial(c) && Run(c, Ok, ins).wait == Crash
    ensures j < |ins| && Live(Before(c, ins, j)) && LateProof(Before(c, ins, j).c, ins[j].e)
    decreases |ins|
  {
    if ins == [] {
      assert false;
    } else {
      var n := |ins| - 1;
      if !Live(Before(c, ins, n)) {
        EndedStays(c, Ok, ins, n);
        j := CrashAt(c, ins[..n]);
        assert ins[..n][..j] == ins[..j];
      } else {
        BeforeNext(c, ins, n);
        assert ins[..n + 1] == ins;
        InitialHolds(c, false);
        RunKeepsInv(c, Ok, ins[..n]);
        TurnKeepsInv(Before(c, ins, n).c, ins[n]);
        j := n;
      }
    }
  }

  lemma LateProofCrashes(c: Client, ins: seq<Input>, j: nat)
    requires Initial(c) && j < |ins| && Live(Before(c, ins, j)) && LateProof(Before(c, ins, j).c, ins[j].e)
    ensures Run(c, Ok, ins).wait == Crash
  {
    BeforeNext(c, ins, j);
    InitialHolds(c, false);
    RunKeepsInv(c, Ok, ins[..j]);
    TurnKeepsInv(Before(c, ins, j).c, ins[j]);
    EndedStays(c, Ok, ins, j + 1);
  }

  lemma WithoutIsKeyless(c: Client, ins: seq<Input>, i: nat)
    requires Initial(c) && WentOnWithout(c, ins, i)
    ensures Keyless(Before(c, ins, i + 1).c)
  {
    InitialHolds(c, false);
    RunKeepsInv(c, Ok, ins[..i]);
    var c0 := Before(c, ins, i).c;
    TurnIsStep(c0, ins[i], Message(ins[i].item));
    GoesOnKeyless(c0, ins[i].e);
    BeforeNext(c, ins, i);
  }

  lemma WithoutThenCrash(c: Client, ins: seq<Input>, i: nat, j: nat)
    requires Initial(c) && i < j && WentOnWithout(c, ins, i) && ProvesAt(c, ins, j)
    ensures Run(c, Ok, ins).wait == Crash
  {
    WithoutIsKeyless(c, ins, i);
    StaysKeyless(c, ins, i + 1, j);
    LateProofCrashes(c, ins, j);
  }

  lemma CrashHasCause(c: Client, ins: seq<Input>) returns (i: nat, j: nat)
    requires Initial(c) && Run(c, Ok, ins).wait == Crash
    ensures i < j && WentOnWithout(c, ins, i) && ProvesAt(c, ins, j)
  {
    j := CrashAt(c, ins);
    i := KeylessSince(c, ins, j);
  }

  /**
   * Against any peer, with a client certificate that may come and go: the
   * client uses a missing object if and only if it went on without a
   * certificate although one was requested, and one is configured when it is to
   * be proved.
   */
  lemma CrashExactly(c: Client, ins: seq<Input>)
    requires Initial(c)
    ensures Run(c, Ok, ins).wait == Crash <==> exists i, j :: 0 <= i < j && WentOnWithout(c, ins, i) && ProvesAt(c, ins, j)
  {
    if Run(c, Ok, ins).wait == Crash {
      var i, j := CrashHasCause(c, ins);
    }
    if i, j :| 0 <= i < j && WentOnWithout(c, ins, i) && ProvesAt(c, ins, j) {
      WithoutThenCrash(c, ins, i, j);
    }
  }

  // A run that crashes: plain RSA, with a certificate request, and a certificate that comes late

  const RSA_SUITE: Params := Params(false, RSA, true, false, false, false, false, false)

  function Calm(hasCert: bool): Env {
    Env(false, false, hasCert, false, false, false, false, RSA_SUITE, false, false, 0)
  }

  function Get(tag: Tag, body: Body): Input {
    Input(Some(Hs(Msg(tag, body))), Calm(false))
  }

  function Go(hasCert: bool): Input {
    Input(None, Calm(hasCert))
  }

  lemma Goes(c: Client, w: Wait, x: Input, rest: seq<Input>)
    requires w != Error && w != Crash && c.state != Done
    ensures var r := Turn(c, x); Run(c, w, [x] + rest) == Run(r.c, r.wait, rest)
  {
    assert ([x] + rest)[0] == x && ([x] + rest)[1..] == rest;
  }

  predicate Starting(c: Client, st: State) {
    c.state == st && Held(c) && !c.f.session && !c.f.dtls
  }

  predicate At(c: Client, st: State, certRequest: bool) {
    c.state == st && Held(c) && !c.f.session && c.f.hello == RSA_SUITE && c.f.certRequest == certRequest
  }

  lemma StartsHello(c: Client)
    requires Starting(c, StartConnect)
    ensures var r := Turn(c, Go(false)); r.wait == Flush && Starting(r.c, EnterEarlyData)
  {
    KeepStartConnect(c, Calm(false));
  }

  lemma EntersHello(c: Client)
    requires Starting(c, EnterEarlyData)
    ensures var r := Turn(c, Go(false)); r.wait == Ok && Starting(r.c, ReadServerHello)
  {
    KeepEnterEarlyData(c, Calm(false));
  }

  lemma TakesHello(c: Client)
    requires Starting(c, ReadServerHello)
    ensures var r := Turn(c, Get(ServerHello, Chosen(RSA_SUITE, 0))); r.wait == Ok && At(r.c, ReadServerCertificate, false)
  {
    KeepReadServerHello(c, Some(Msg(ServerHello, Chosen(RSA_SUITE, 0))), Calm(false));
  }

  lemma TakesCertificate(c: Client)
    requires At(c, ReadServerCertificate, false)
    ensures var r := Turn(c, Get(Certificate, Chain(false, 0))); r.wait == Ok && At(r.c, ReadCertificateStatus, false)
  {
    KeepReadServerCertificate(c, Some(Msg(Certificate, Chain(false, 0))), Calm(false));
  }

  lemma PassesStatus(c: Client)
    requires At(c, ReadCertificateStatus, false)
    ensures var r := Turn(c, Go(false)); r.wait == Ok && At(r.c, VerifyServerCertificate, false)
  {
    KeepReadCertificateStatus(c, None, Calm(false));
  }

  lemma Verifies(c: Client)
    requires At(c, VerifyServerCertificate, false)
    ensures var r := Turn(c, Go(false)); r.wait == Ok && At(r.c, ReadServerKeyExchange, false)
  {
    KeepVerifyServerCertificate(c, Calm(false));
  }

  lemma PassesKeyExchange(c: Client)
    requires At(c, ReadServerKeyExchange, false)
    ensures var r := Turn(c, Get(CertificateRequest, Opaque(0))); r.wait == Ok && At(r.c, ReadCertificateRequest, false)
  {
    KeepReadServerKeyExchange(c, Some(Msg(CertificateRequest, Opaque(0))), Calm(false));
  }

  lemma TakesRequest(c: Client)
    requires At(c, ReadCertificateRequest, false)
    ensures var r := Turn(c, Get(CertificateRequest, Opaque(0))); r.wait == Ok && At(r.c, ReadServerHelloDone, true)
  {
    KeepReadCertificateRequest(c, Some(Msg(CertificateRequest, Opaque(0))), Calm(false));
  }

  lemma TakesHelloDone(c: Client)
    requires At(c, ReadServerHelloDone, true)
    ensures var r := Turn(c, Get(ServerHelloDone, Opaque(0))); r.wait == Ok && At(r.c, SendClientCertificate, true)
  {
    KeepReadServerHelloDone(c, Some(Msg(ServerHelloDone, Opaque(0))), Calm(false));
  }

  lemma SendsNone(c: Client)
    requires At(c, SendClientCertificate, true)
    ensures var r := Turn(c, Go(false)); r.wait == Ok && At(r.c, SendClientKeyExchange, true) && !r.c.own.localPubkey
  {
    KeepSendClientCertificate(c, Calm(false));
  }

  lemma SendsKeyExchange(c: Client)
    requires At(c, SendClientKeyExchange, true) && !c.own.localPubkey
    ensures var r := Turn(c, Go(false)); r.wait == Ok && At(r.c, SendClientCertificateVerify, true) && !r.c.own.localPubkey
  {
    KeepSendClientKeyExchange(c, Calm(false));
  }

  lemma Crashes(c: Client)
    requires At(c, SendClientCertificateVerify, true) && !c.own.localPubkey
    ensures Turn(c, Go(true)).wait == Crash
  {
  }

  /** The last three rounds, behind which a certificate has come. */
  lemma CrashFrom(c: Client)
    requires At(c, SendClientCertificate, true)
    ensures Run(c, Ok, [Go(false)] + ([Go(false)] + ([Go(true)] + []))).wait == Crash
  {
    SendsNone(c);
    var c1 := Turn(c, Go(false)).c;
    SendsKeyExchange(c1);
    var c2 := Turn(c1, Go(false)).c;
    Crashes(c2);
    Goes(c2, Ok, Go(true), []);
    Goes(c1, Ok, Go(false), [Go(true)] + []);
    Goes(c, Ok, Go(false), [Go(false)] + ([Go(true)] + []));
  }

  /** From the server's key exchange, which plain RSA has not. */
  lemma RequestedFrom(c: Client, rest: seq<Input>)
    requires At(c, ReadServerKeyExchange, false)
    ensures var ins := [Get(CertificateRequest, Opaque(0))] + ([Get(CertificateRequest, Opaque(0))] + ([Get(ServerHelloDone, Opaque(0))] + rest));
            exists c' :: At(c', SendClientCertificate, true) && Run(c, Ok, ins) == Run(c', Ok, rest)
  {
    var request, finish := Get(CertificateRequest, Opaque(0)), Get(ServerHelloDone, Opaque(0));
    PassesKeyExchange(c);
    var c1 := Turn(c, request).c;
    TakesRequest(c1);
    var c2 := Turn(c1, request).c;
    TakesHelloDone(c2);
    Goes(c2, Ok, finish, rest);
    Goes(c1, Ok, request, [finish] + rest);
    Goes(c, Ok, request, [request] + ([finish] + rest));
    assert At(Turn(c2, finish).c, SendClientCertificate, true);
  }

  lemma CertifiedFrom(c: Client, rest: seq<Input>)
    requires At(c, ReadServerCertificate, false)
    ensures exists c' :: At(c', ReadServerKeyExchange, false)
                         && Run(c, Ok, [Get(Certificate, Chain(false, 0))] + ([Go(false)] + ([Go(false)] + rest))) == Run(c', Ok, rest)
  {
    TakesCertificate(c);
    var c1 := Turn(c, Get(Certificate, Chain(false, 0))).c;
    PassesStatus(c1);
    var c2 := Turn(c1, Go(false)).c;
    Verifies(c2);
    Goes(c2, Ok, Go(false), rest);
    Goes(c1, Ok, Go(false), [Go(false)] + rest);
    Goes(c, Ok, Get(Certificate, Chain(false, 0)), [Go(false)] + ([Go(false)] + rest));
    assert At(Turn(c2, Go(false)).c, ReadServerKeyExchange, false);
  }

  lemma GreetedFrom(c: Client, rest: seq<Input>)
    requires Starting(c, StartConnect)
    ensures exists c' :: At(c', ReadServerCertificate, false)
                         && Run(c, Ok, [Go(false)] + ([Go(false)] + ([Get(ServerHello, Chosen(RSA_SUITE, 0))] + rest))) == Run(c', Ok, rest)
  {
    var hello := Get(ServerHello, Chosen(RSA_SUITE, 0));
    StartsHello(c);
    var r1 := Turn(c, Go(false));
    EntersHello(r1.c);
    var c2 := Turn(r1.c, Go(false)).c;
    TakesHello(c2);
    Goes(c2, Ok, hello, rest);
    Goes(r1.c, r1.wait, Go(false), [hello] + rest);
    Goes(c, Ok, Go(false), [Go(false)] + ([hello] + rest));
    assert At(Turn(c2, hello).c, ReadServerCertificate, false);
  }

  /** From its start, a client without a session comes to crash so. */
  lemma LateCertificateCrashes(c: Client) returns (ins: seq<Input>)
    requires Initial(c) && !c.f.session && !c.f.dtls
    ensures Run(c, Ok, ins).wait == Crash
  {
    InitialHolds(c, false);
    var last := [Go(false)] + ([Go(false)] + ([Go(true)] + []));
    var requested := [Get(CertificateRequest, Opaque(0))] + ([Get(CertificateRequest, Opaque(0))] + ([Get(ServerHelloDone, Opaque(0))] + last));
    var certified := [Get(Certificate, Chain(false, 0))] + ([Go(false)] + ([Go(false)] + requested));
    ins := [Go(false)] + ([Go(false)] + ([Get(ServerHello, Chosen(RSA_SUITE, 0))] + certified));
    GreetedFrom(c, certified);
    var c1 :| At(c1, ReadServerCertificate, false) && Run(c, Ok, ins) == Run(c1, Ok, certified);
    CertifiedFrom(c1, requested);
    var c2 :| At(c2, ReadServerKeyExchange, false) && Run(c1, Ok, certified) == Run(c2, Ok, requested);
    RequestedFrom(c2, last);
    var c3 :| At(c3, SendClientCertificate, true) && Run(c2, Ok, requested) == Run(c3, Ok, last);
    CrashFrom(c3);
  }
}
