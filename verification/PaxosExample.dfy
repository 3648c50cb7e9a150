/** A run of one node and one group, step by step: a slot decided after a prepare, and the next one
    decided without. It shows that the system can do what the theorems speak of. */
module PaxosExample {
  import opened Options
  import opened PaxosTypes
  import opened PaxosSystem

  const C: Config := Config({0}, Intended)

  const R1: Round := Round(7, 1, BID_NORMAL)
  const R2: Round := Round(7, 2, BID_PRIOR)
  const P1: Proposal := Proposal(R1, 0, [5])
  const P2: Proposal := Proposal(R2, 0, [6])

  const PREPARED: GroupInfo := CountPromise(NewGroup(R1), 0, Response(R1, Success, []))
  const T1: Txn := Txn(0, [5], false, 1, NewGroup(R1))
  const T1_ACCEPT: Txn := T1.(group := PREPARED, phase := 2)
  const T1_DONE: Txn := T1.(group := CountAccepted(PREPARED, 0, Response(R1, Success, [])), phase := 3)
  const T2: Txn := Txn(0, [6], true, 2, NewGroup(R2))
  const T2_DONE: Txn := T2.(group := CountAccepted(NewGroup(R2), 0, Response(R2, Success, [])), phase := 3)

  const M1: Msg := Prepare(1, R1)
  const M2: Msg := Promise(1, 0, Response(R1, Success, []))
  const M3: Msg := Accept(1, P1)
  const M4: Msg := Accepted(1, 0, Response(R1, Success, []))
  const M5: Msg := Accept(2, P2)
  const M6: Msg := Accepted(2, 0, Response(R2, Success, []))

  const I1: Instance := Instance(7, 1)
  const I2: Instance := Instance(7, 2)
  const A1: AccTable := map[I1 := AccInfo(BID_NORMAL, [])]
  const A2: AccTable := map[I1 := AccInfo(BID_NORMAL, [P1])]
  const A3: AccTable := map[I1 := AccInfo(BID_NORMAL, [P1]), I2 := AccInfo(0, [P2])]

  const N1: NextTable := map[7 := NextSid(1, false)]
  const N2: NextTable := map[7 := NextSid(2, true)]
  const N3: NextTable := map[7 := NextSid(3, true)]

  const S0: State := State(map[], {}, [], map[], map[], {})
  const S1: State := State(map[], {}, [M1], map[1 := T1], map[0 := N1], {(0, 7)})
  const S2: State := State(map[0 := A1], {}, [M1, M2], map[1 := T1], map[0 := N1], {(0, 7)})
  const S3: State := State(map[0 := A1], {}, [M1, M2, M3], map[1 := T1_ACCEPT], map[0 := N1], {(0, 7)})
  const S4: State := State(map[0 := A2], {}, [M1, M2, M3, M4], map[1 := T1_ACCEPT], map[0 := N1], {(0, 7)})
  const S5: State := State(map[0 := A2], {}, [M1, M2, M3, M4], map[1 := T1_DONE], map[0 := N2], {})
  const S6: State := State(map[0 := A2], {}, [M1, M2, M3, M4, M5], map[1 := T1_DONE, 2 := T2], map[0 := N2], {(0, 7)})
  const S7: State := State(map[0 := A3], {}, [M1, M2, M3, M4, M5, M6], map[1 := T1_DONE, 2 := T2], map[0 := N2],
    {(0, 7)})
  const S8: State := State(map[0 := A3], {}, [M1, M2, M3, M4, M5, M6], map[1 := T1_DONE, 2 := T2_DONE], map[0 := N3],
    {})

  lemma Step1()
    ensures Next(C, S0, S1)
  {
    assert S1.log == S0.log + [M1];
    assert Start(C, S0, S1, 0, 7, 1, [5], 0);
  }

  lemma Step2()
    ensures Next(C, S1, S2)
  {
    assert S2.log == S1.log + [M2];
    assert RecvPrepare(C, S1, S2, 0, 0);
  }

  lemma Step3()
    ensures Next(C, S2, S3)
  {
    assert LargestOf(None, []) == None;
    assert S3.log == S2.log + [M3];
    assert S3.txns == S2.txns[1 := T1_ACCEPT];
    assert RecvPromise(C, S2, S3, 1);
  }

  lemma Step4()
    ensures Next(C, S3, S4)
  {
    assert S3.log[2] == M3 && InfoAt(S3, 0, I1) == AccInfo(BID_NORMAL, []);
    assert AcceptInfo(AccInfo(BID_NORMAL, []), P1) == AccInfo(BID_NORMAL, [P1]) by { assert [] + [P1] == [P1]; }
    assert A1[I1 := AccInfo(BID_NORMAL, [P1])] == A2;
    assert S4.acc == S3.acc[0 := A2];
    assert S4.log == S3.log + [M4];
    assert RecvAccept(C, S3, S4, 0, 2);
  }

  lemma Step5()
    ensures Next(C, S4, S5)
  {
    assert S4.log[3] == M4 && S4.txns[1] == T1_ACCEPT;
    assert LargestOf(None, []) == None;
    assert S5.txns == S4.txns[1 := T1_DONE];
    assert Choice(C, T1_DONE) == P1;
    assert Decided(N1, P1, 0) == N2;
    assert S5.next == S4.next[0 := N2];
    assert S5.busy == S4.busy - {(0, 7)};
    assert RecvAccepted(C, S4, S5, 3);
  }

  lemma Step6()
    ensures Next(C, S5, S6)
  {
    assert Newest(NextOf(S5, 0), 7) == NextSid(2, true);
    assert S6.txns == S5.txns[2 := T2];
    assert N2[7 := NextSid(2, true)] == N2;
    assert S6.next == S5.next[0 := N2];
    assert S6.busy == S5.busy + {(0, 7)};
    assert Choice(C, T2) == P2;
    assert S6.log == S5.log + [M5];
    assert Start(C, S5, S6, 0, 7, 2, [6], 0);
  }

  lemma Step7()
    ensures Next(C, S6, S7)
  {
    assert S6.log[4] == M5 && InfoAt(S6, 0, I2) == AccInfo(0, []);
    assert AcceptInfo(AccInfo(0, []), P2) == AccInfo(0, [P2]) by { assert [] + [P2] == [P2]; }
    assert A2[I2 := AccInfo(0, [P2])] == A3;
    assert S7.acc == S6.acc[0 := A3];
    assert S7.log == S6.log + [M6];
    assert RecvAccept(C, S6, S7, 0, 4);
  }

  lemma Step8()
    ensures Next(C, S7, S8)
  {
    assert S7.log[5] == M6 && S7.txns[2] == T2;
    assert LargestOf(None, []) == None;
    assert S8.txns == S7.txns[2 := T2_DONE];
    assert Choice(C, T2_DONE) == P2;
    assert Decided(N2, P2, 0) == N3;
    assert S8.next == S7.next[0 := N3];
    assert S8.busy == S7.busy - {(0, 7)};
    assert RecvAccepted(C, S7, S8, 5);
  }

  /** Some run ends in this state. */
  ghost predicate Reached(c: Config, s: State) {
    exists run :: IsRun(c, run) && run[|run| - 1] == s
  }

  lemma ReachStart(c: Config, s: State)
    requires Init(c, s)
    ensures Reached(c, s)
  {
    assert IsRun(c, [s]);
  }

  lemma ReachNext(c: Config, s: State, t: State)
    requires Reached(c, s) && Next(c, s, t)
    ensures Reached(c, t)
  {
    var run :| IsRun(c, run) && run[|run| - 1] == s;
    var longer := run + [t];
    forall i | 0 <= i < |longer| - 1 ensures Next(c, longer[i], longer[i + 1]) {
      if i < |run| - 1 { assert Next(c, run[i], run[i + 1]); }
    }
    assert IsRun(c, longer);
  }

  lemma ReachFirstAccept()
    ensures Reached(C, S3)
  {
    ReachStart(C, S0);
    Step1();
    ReachNext(C, S0, S1);
    Step2();
    ReachNext(C, S1, S2);
    Step3();
    ReachNext(C, S2, S3);
  }

  lemma ReachFirstDecision()
    ensures Reached(C, S5)
  {
    ReachFirstAccept();
    Step4();
    ReachNext(C, S3, S4);
    Step5();
    ReachNext(C, S4, S5);
  }

  lemma ReachSecondDecision()
    ensures Reached(C, S8)
  {
    ReachFirstDecision();
    Step6();
    ReachNext(C, S5, S6);
    Step7();
    ReachNext(C, S6, S7);
    Step8();
    ReachNext(C, S7, S8);
  }

  /** A run in which a slot is decided after a prepare and the next one without; both values are
      chosen. */
  lemma DecidesTwice()
    ensures Reached(C, S8)
    ensures S8.txns[1].phase == 3 && !S8.txns[1].fast && S8.txns[2].phase == 3 && S8.txns[2].fast
    ensures Chosen(C, S8, P1) && Chosen(C, S8, P2)
  {
    ReachSecondDecision();
    assert InfoAt(S8, 0, I1).props[0] == P1;
    assert InfoAt(S8, 0, I2).props[0] == P2;
    assert MajorityHas(C, S8, {0}, P1);
    assert MajorityHas(C, S8, {0}, P2);
  }
}
