# Verified models of MPaxos

MPaxos is a Paxos library in C with an erasure coder, a group scheduler and a framed RPC layer,
and a profiling script in Python. The Dafny modules here model their hard parts and prove what
they are for. `dafny verify dfyconfig.toml` checks everything.

**Erasure coder** (`Fec*.dfy`, `RsHelper.dfy`). The code works over a field given as a record of
operations and laws; `FecGf256` shows that bytes with the polynomial of the source are such a
field, `FecTables` that the tables built by the code are its operations. `FecPoly` and
`FecVandermonde` carry the polynomial argument behind the fast Vandermonde inverse,
`FecInverse` and `FecMatrix` the in-place Gauss-Jordan inversion as a chain of exchanges of one
linear relation, `FecCode` when any k rows of the generator matrix are nonsingular, `FecCoder`
the encoder and the decoder, `RsHelper` the way from the data to the shares and back.

**Paxos** (`Paxos*.dfy`). `PaxosTypes` gives the effect of every handler on values, `PaxosNode`
the classes that carry these effects out in place, `PaxosSystem` the steps of many nodes over a
network that keeps every message. `PaxosInvariant` and `PaxosPreserve` hold the inductive
invariant, `PaxosAgreement` the argument for agreement and for skipping the prepare, `PaxosRuns`
the results for whole runs, `PaxosForget` those for nodes that forget old slots. `PaxosProgress` and
`PaxosContinue` show that a round whose ballot nobody in a majority contests can always go on to
decide. Two variants are covered. *Intended*: a round that has heard of an accepted proposal sends
that value under its own ballot. *AsCoded*: it sends the old proposal with its old round id, as
`mpaxos_accept` does; the answers are then dropped (`libmpaxos/proposer.c:263-267`), so such a round
never decides. Both variants satisfy agreement.

**Cycles of a call graph** (`CallGraph`, `CycleSearch`, `CycleProfile`). Tarjan's search as
`find_cycles` runs it, with fresh orders for every root.

**Scheduler** (`MprQueue`, `DagOrder`, `DagRuns`, `MprDag`). Requests wait in one queue for each
of their groups and run when they head all of them. Sequences without repetitions are in
`Collections`.

**RPC** (`Bytes`, `RpcBuf`, `RpcFrame`). A compacting, doubling buffer as a queue of bytes, and
messages framed on it.

**Protocol Buffers runtime** (`Pb*.dfy`, `ByteArrays`). `PbMessage` says what a message packs into
and `PbUnpack` what unpacking bytes means, for any table of message types; `PbRoundTrip` proves
that the one undoes the other. `PbWriter`, `PbPack`, `PbSize` and `PbBuffer` are the writers that
work in place, `PbReader`, `PbRanges`, `PbSlabs` and `PbUnpacker` the two passes of the reader, each
proved to compute just that. `PbMeaning` says what comes out for any bytes, packed by these writers or
not, and `PbLengths` what happens at lengths near 2^32. `PbMpaxos` holds the generated tables of the
Paxos messages. The wire format is that of the Encoding guide, sections "Base 128 Varints" and
"Message Structure".

**Key-value operations** (`KvOperation`). An operation and its arguments in one block of bytes.

## Model

| member | source | states |
|---|---|---|
| FecTables.Modnn | libzfec/fec.c:37-44 | the shift-and-add loop ends and returns the argument modulo 255, for every argument from 0 up |
| FecTables.Gf.GenerateGf | libzfec/fec.c:94-153 | the exp, log and inverse tables hold the powers of 2 under the polynomial x^8+x^4+x^3+x^2+1, their logarithms and the inverses |
| FecTables.Gf.InitMulTable | libzfec/fec.c:77-86 | every entry of the multiplication table is the product in the field of bytes, rows and columns of zero included |
| FecTables.PpPrefixStep | libzfec/fec.c:113-121 | the shifts and tests of the first eight powers add up the bits of the polynomial string to the value of alpha^8 |
| FecGf256.AlphaPrimitive | libzfec/fec.c:16 | 2 has order exactly 255 modulo the polynomial, so every nonzero byte has one logarithm |
| FecGf256.ByteFieldLaws | libzfec/fec.c:16-31 | shift-and-reduce multiplication and exclusive or make the bytes a field: associative, commutative, distributive, with inverses |
| FecMatrix.AddMul1 | libzfec/fec.c:166-204 | the loop unrolled sixteen times and its tail add c times every source byte to the destination byte, for every length |
| FecVandermonde.MatMul | libzfec/fec.c:209-223 | every entry of the output is the inner product of a row and a column |
| FecInverse.PivotExists | libzfec/fec.c:250-274 | while a column is not reduced and the matrix is nonsingular, some row not used has a nonzero entry in a column not used |
| FecMatrix.FindPivot | libzfec/fec.c:250-275 | the pivot search, diagonal first, always ends at a nonzero entry of an unused row and column |
| FecInverse.ExchangePivot | libzfec/fec.c:287-318 | scaling the pivot row and clearing its column exchanges one input of the linear relation for one output, with the pivot's place left to hold the inverse |
| FecInverse.ExchangeSwap | libzfec/fec.c:277-286 | swapping two rows keeps the relation when the recorded order is swapped as well |
| FecMatrix.EliminateByUnit | libzfec/fec.c:300-317 | when the pivot row is a unit row the skipped elimination would change nothing |
| FecInverse.UnscrambleStep | libzfec/fec.c:319-322 | swapping two columns undoes one recorded exchange of rows |
| FecInverse.InverseTwoSided | libzfec/fec.c:231-323 | what solves the system for all right-hand sides is a left and a right inverse |
| FecMatrix.InvertMat | libzfec/fec.c:231-323 | every nonsingular matrix is replaced by its inverse in place |
| FecVandermonde.MasterPolynomial | libzfec/fec.c:358-369 | since every stage skips the lowest coefficient, c holds the product of all (x - p_i) with the first two points replaced by 0 and their sum, which for p_0 = 0 is the master polynomial |
| FecVandermonde.SyntheticDivision | libzfec/fec.c:375-381 | b holds the quotient of that polynomial by (x - xx), and t the quotient's value at xx |
| FecPoly.QuotientAtPoints | libzfec/fec.c:371-384 | for a monic polynomial of degree k with one value at all k points the quotient by (x - p_row) is zero at the other points and not zero at p_row |
| FecVandermonde.BasisIsLagrange | libzfec/fec.c:371-384 | the scaled quotients are 1 at their own point and 0 at the others exactly if the polynomial divided has one value at all points |
| FecVandermonde.SkewedIsLevel | libzfec/fec.c:358-369 | the polynomial computed has one value at all points exactly if k is at most 2 or one of the first two points is 0 |
| FecVandermonde.InvertVdm | libzfec/fec.c:336-389 | for any distinct points, the first 0 or not, the columns of the result are the Lagrange polynomials exactly if k is at most 2 or one of the first two points is 0; k = 1 is left alone |
| FecVandermonde.LagrangeInverts | libzfec/fec.c:336-389 | a matrix has the Lagrange polynomials as columns exactly if the Vandermonde matrix times it is the identity |
| FecVandermonde.ThreePointsFail | libzfec/fec.c:366 | for the points 1, 2, 3 the result is not the inverse |
| FecPoly.RootBound | libzfec/fec.c:430-453 | a polynomial of degree below k with k distinct roots is zero |
| FecCode.PointsAreDistinct | libzfec/fec.c:430-439 | the first n points 0, 1, a, ..., a^(n-2) differ exactly if n is at most 256, since a^255 is 1 |
| FecCode.SystematicMatrix | libzfec/fec.c:441-453 | the identity over the lower rows times the inverse of the top is a code: every row evaluates the same interpolating polynomial at its point |
| FecCode.AnyRowsNonSingular | libzfec/fec.c:430-453 | any k rows with different numbers of the generator matrix form a nonsingular matrix, for at most 256 blocks or one data block |
| FecCode.AnyRowsIff | libzfec/fec.c:430-453 | that holds for all choices of k rows exactly if there are at most 256 blocks or one data block: among the first 257 rows two evaluate at the point 1 |
| FecCode.Interpolates | libzfec/fec.c:441-453 | the code interpolates: from its values at the first k points comes back any polynomial with k coefficients |
| FecCoder.Fec.constructor | libzfec/fec.c:414-457 | fec_new builds the systematic generator matrix of that code for all k from 1 to 256 and any n from k on |
| FecCoder.Fec.Encode | libzfec/fec.c:465-483 | every byte of every requested check block is the inner product of its generator row with the data bytes at that place, for every size, in strides of 8192 |
| FecCoder.CounterEnds | libzfec/fec.c:467-481 | a loop with an eight-bit counter ends exactly if its bound is at most 255 |
| FecCoder.Fec.BuildDecodeMatrix | libzfec/fec.c:490-503 | the matrix built from unit rows and generator rows of the received blocks is replaced by its inverse |
| FecCoder.RebuiltAll | libzfec/fec.c:490-522 | the decode matrix times the received bytes is the data, byte by byte |
| FecCoder.Fec.Decode | libzfec/fec.c:505-522 | from any k different blocks, each primary block in its own place, the outputs are exactly the missing primary blocks, in order |
| RsHelper.EncodeAndRebuild | libzfec/fec.c:465-522 | the whole way: the data is cut and encoded, any k blocks are received, the missing ones rebuilt, and the blocks joined are the data |
| RsHelper.RsEncode | libmpaxos/rs_helper.h:8-46 | all n shares are blocks of the code over the data, and the first k shares joined are the data |
| RsHelper.JoinCut | libmpaxos/rs_helper.h:10-21 | cutting into k equal shares and joining them gives the data back |
| RsHelper.CopiesStayInside | libmpaxos/rs_helper.h:10-21 | the copies read only the data exactly if k divides its size |
| PaxosNode.Acceptor.GetInfo | libmpaxos/acceptor.c:54-69 | a record is created, with ballot 0 and nothing accepted, for an instance not seen before, and no other changes |
| PaxosNode.Acceptor.ForgetInfo | libmpaxos/acceptor.c:71-89 | the record is dropped, so that the next message finds the instance as never seen, and no other changes |
| PaxosNode.Acceptor.AnswerPrepare | libmpaxos/acceptor.c:124-156 | it stops exactly at a ballot equal to the record's; otherwise Success exactly for a larger one, the larger of the two stays, what was accepted stays and is reported, also when refused; no other slot changes |
| PaxosNode.Acceptor.HandlePrepare | libmpaxos/acceptor.c:91-176 | the answers to all round ids in order, or a stop at the first equal ballot |
| PaxosNode.PrepareStopsIff | libmpaxos/acceptor.c:138-142 | a prepare for different slots stops the process exactly if one of its ballots equals the acceptor's ballot there |
| PaxosNode.PreparedEach | libmpaxos/acceptor.c:106-156 | otherwise each slot is answered as if it were the only one: granted exactly if the ballot is larger, whatever was accepted; and no other slot changes |
| PaxosNode.Acceptor.AnswerAccept | libmpaxos/acceptor.c:196-231 | Success exactly for a proposal at or above the ballot, which is then appended; the ballot stays where it is |
| PaxosNode.Acceptor.HandleAccept | libmpaxos/acceptor.c:178-250 | the table and the answers after all round ids of the proposal, in order; no ballot changes in any slot |
| PaxosNode.AcceptedEach | libmpaxos/acceptor.c:193-232 | for different slots each one is answered as if it were the only one, and no other changes |
| PaxosNode.TxnRecord.CheckMajority | libmpaxos/proposer.c:36-73 | yes exactly if in every group more than half of the nodes said yes; no comes with a group in which more than half said no; the result is the verdict of the first group, in the order of the hash table, that is not a yes |
| PaxosNode.YesMeansAll | libmpaxos/proposer.c:36-73 | yes is returned exactly if every group has a majority of yes, whatever the order of the table |
| PaxosNode.TxnRecord.NoSplit | libmpaxos/proposer.c:48-64 | no group can have more than half of its nodes saying yes and more than half saying no |
| PaxosTypes.CountsKept | libmpaxos/proposer.c:141-160 | each counter stays the number of different nodes recorded with that answer |
| PaxosNode.TxnRecord.NoteProposals | libmpaxos/proposer.c:162-183 | the loop leaves the largest ballot seen in the group, the first of equals, and updates the transaction's copy |
| PaxosNode.ReportIsLargest | libmpaxos/proposer.c:162-183 | the loop over reported proposals computes the largest of them and of what was known |
| PaxosNode.TxnRecord.constructor | libmpaxos/controller.c:74-96 | a new transaction has one empty record for each group and starts in phase 1, or in phase 2 if the prepare is skipped |
| PaxosNode.TxnRecord.HandlePromise | libmpaxos/proposer.c:97-213 | outside phase 1 nothing changes; in it the answers are counted and the phase becomes 2, -1 or stays 1 by the majority |
| PaxosNode.TxnRecord.HandleAccepted | libmpaxos/proposer.c:229-340 | outside phase 2 nothing changes; in it the phase becomes 3, -1 or stays 2, so that a transaction decides and calls back at most once |
| PaxosNode.TxnRecord.Proposed | libmpaxos/proposer.c:355-378 | the largest proposal heard of in any group, or the transaction's own if none was |
| PaxosNode.OneGroupPromise | libmpaxos/proposer.c:97-197 | in one group, the record's step and verdict are those of the system of many nodes |
| PaxosNode.Recorder.GetNewestSid | libmpaxos/recorder.c:127-145 | the next slot of a group, 1 and not ours for a new group |
| PaxosNode.Recorder.RecordDecided | libmpaxos/recorder.c:94-125 | the next slots after all round ids of the decided proposal |
| PaxosNode.Recorder.RecordOne | libmpaxos/recorder.c:104-123 | a decision at or beyond the next slot moves it on and records whether the value is this node's |
| PaxosNode.DecidedEach | libmpaxos/recorder.c:94-125 | afterwards each next slot is behind all slots decided in its group, and where it moved it tells whether the value is this node's |
| PaxosNode.Recorder.StartRequest | libmpaxos/controller.c:115-137 | the round ids use the next slots, and the prior ballot only if this node decided the previous slot of every group |
| PaxosTypes.QuorumsMeet | libmpaxos/proposer.c:48-60 | two majorities of one group share a node |
| PaxosTypes.QuorumIsMajority | libmpaxos/proposer.c:48-60 | the threshold of half the size, rounded down, and one is met exactly by more than half of the nodes |
| PaxosTypes.LargestIsFirst | libmpaxos/proposer.c:162-183 | the choice is the first report with the largest ballot, unless what was known is not smaller |
| PaxosPreserve.NextKeeps | libmpaxos/proposer.c:97-395 | every step of every node keeps the invariant |
| PaxosPreserve.RunInv | libmpaxos/proposer.c:97-395 | every state of every run satisfies the invariant |
| PaxosAgreement.Heard | libmpaxos/acceptor.c:129-156 | a prepared round above a chosen ballot has heard of a proposal not below that ballot |
| PaxosAgreement.OneAccept | libmpaxos/acceptor.c:128-142 | two accepts never carry the same round id, because prepares must rise strictly and majorities meet |
| PaxosAgreement.LaterAccepts | libmpaxos/proposer.c:364-378 | every accept at or above a chosen ballot carries the chosen value, by induction on the order of sending |
| PaxosAgreement.FastIsUnique | libmpaxos/controller.c:122-150 | at most one transaction in the system skips the prepare of a slot, by induction over the slots |
| PaxosAgreement.DecidedIsChosen | libmpaxos/proposer.c:313-328 | what a transaction decided has been accepted by a majority |
| PaxosAgreement.AsCodedDecidesOwn | libmpaxos/proposer.c:364-367 | as coded, a round that sends an older proposal with its old round id never decides: only one that proposed its own value does |
| PaxosAgreement.AsCodedDecidesOnce | libmpaxos/proposer.c:263-267 | as coded, at most one transaction in the system decides a slot |
| PaxosRuns.ChosenStays | libmpaxos/acceptor.c:211-219 | what more than half of the nodes have accepted stays accepted by them |
| PaxosRuns.RunAgreement | libmpaxos/acceptor.c:91-250 | in every run two proposals that more than half of the nodes have accepted in one slot carry one value, in the intended and in the as-coded variant |
| PaxosRuns.RunFastUnique | libmpaxos/controller.c:122-150 | in every run at most one transaction proposes a slot at the prior ballot |
| PaxosRuns.RunDecisions | libmpaxos/proposer.c:400-414 | in every run all decisions of a slot carry one value, accepted by more than half of the nodes, and as coded are one transaction's |
| PaxosRuns.PhaseForward | libmpaxos/proposer.c:97-328 | along a run a transaction stays and its phase only moves forward: 1 to 2 or -1, 2 to 3 or -1, and 3 and -1 are final |
| PaxosRuns.DecidesOnce | libmpaxos/proposer.c:313-328 | a decided transaction was decided, and called back, by exactly one step of the run, from phase 2 |
| PaxosProgress.RunBallots | libmpaxos/acceptor.c:211-219 | in every run the ballot of an acceptor in a slot is 0 or that of a promise it granted and sent: accepting does not raise it |
| PaxosContinue.NothingBlocks | libmpaxos/acceptor.c:124-232 | non-blocking, as intended: in every state of every run a round that still runs can decide, if more than half of the nodes run and know no ballot that stands against it, whatever they have accepted |
| PaxosForget.MirrorRun | libmpaxos/acceptor.c:71-89 | with nodes that forget slots, as long as nobody has forgotten slot s or one before it in the group, there is a run without forgetting that does the same in these slots |
| PaxosForget.ForgetfulAgreement | libmpaxos/proposer.c:422-427 | with nodes that forget slots ten behind a decision, no two different values are ever accepted by majorities in a slot while nobody has forgotten it or a slot of its group before it, in both variants |
| PaxosForget.ForgetfulDecisions | libmpaxos/proposer.c:400-427 | under the same condition all decisions of a slot carry one value, and as coded are one transaction's |
| PaxosForgetExample.ForgettingBreaksAgreement | libmpaxos/proposer.c:422-427 | a run of three nodes in which node 0 decides slots 1 to 11 and forgets slot 1, and then a majority accepts another value in slot 1 |
| CycleProfile.Profile.FindCycles | script/gprof2dot.py:282-294 | two different functions share a cycle exactly if each reaches the other; a function alone has none; a cycle holds exactly its functions and is listed once |
| CycleProfile.Profile.Tarjan | script/gprof2dot.py:348-377 | from any consistent state of the search: the function's order is set, nothing below it on the stack changes, and the low link is its own order or that of a function on the stack that it reaches, below every call into the old stack |
| CycleProfile.Profile.SearchFrom | script/gprof2dot.py:287-289 | a root searched with fresh orders and stack leaves every function it visited in its right cycle, also those found by earlier roots |
| CycleProfile.Profile.PopComponent | script/gprof2dot.py:369-376 | the functions from the position on leave the stack, and get a new cycle if there are several |
| CycleProfile.Profile.AddFunction | script/gprof2dot.py:245-253 | a function joins a cycle; the loop over the members of its earlier cycle never runs |
| CycleProfile.Profile.ListCycles | script/gprof2dot.py:290-294 | every cycle in use is listed, once |
| CycleProfile.CyclesAreComponents | script/gprof2dot.py:282-294 | once every function is done, sharing a cycle is mutual reachability |
| CycleSearch.TopIsComponent | script/gprof2dot.py:369-371 | when the low link is the function's own order the top of the stack is exactly its strongly connected component |
| CycleSearch.Leave | script/gprof2dot.py:369-372 | taking the component off the stack keeps the invariant of the search |
| CycleSearch.Stay | script/gprof2dot.py:364-368 | a function that is no root stays on the stack, anchored below |
| CycleProfile.Called | script/gprof2dot.py:364-366 | the low link after a recursive call is right for the caller |
| CallGraph.SealedReach | script/gprof2dot.py:348-377 | a set that no call leaves holds everything it reaches |
| MprQueue.Queue.TryPop | libmpaxos/utils/mpr_queue.h:33-46 | head slot and queue together behave as one first-in first-out queue: the first element is taken |
| MprQueue.Queue.Push | libmpaxos/utils/mpr_queue.h:48-54 | an element joins at the end, whether the head slot is filled or not |
| MprQueue.Queue.Peek | libmpaxos/utils/mpr_queue.h:56-73 | the first element is shown and the contents stay |
| MprDag.Dag.Push | libmpaxos/utils/mpr_dag.h:67-107 | for any list of at least one group, repetitions included, the request joins the ends of its queues and is released at once exactly if it heads all of them; then it stands behind all released before it |
| MprDag.Dag.GetWhite | libmpaxos/utils/mpr_dag.h:162-187 | the oldest released request is handed out and turns gray: the j-th handed out is the j-th released |
| MprDag.Dag.Pop | libmpaxos/utils/mpr_dag.h:109-153 | the finishing request is returned; exactly the requests that now head all their queues, and did not before, are released, each once and in the order in which their last group comes in its list; the finished request itself is released once more exactly if its first group is named again, and only then is the scheduler no longer in order |
| MprDag.HeadsAgain | libmpaxos/utils/mpr_dag.h:129-147 | while its queues are popped the finishing request heads all of them again exactly if each of its groups is still to come |
| MprDag.AllToCome | libmpaxos/utils/mpr_dag.h:118-147 | that is so after the first queue exactly if the first group is named again, and if not then, it never is |
| MprDag.SomeRepeat | libmpaxos/utils/mpr_dag.h:84-147 | [1, 1] and [2, 2, 1] name their first group again, [1, 2, 2] does not |
| DagRuns.PushKeeps | libmpaxos/utils/mpr_dag.h:81-106 | a push keeps the invariant: released are exactly the requests that head all their queues, each exactly once |
| DagRuns.TakeKeeps | libmpaxos/utils/mpr_dag.h:162-187 | handing out a request keeps the invariant |
| DagRuns.PopKeeps | libmpaxos/utils/mpr_dag.h:115-147 | a pop keeps the invariant and stops no other request from running |
| MprDag.Dag.ColouredApart | libmpaxos/utils/mpr_dag.h:67-153 | no two pending requests that are white or gray share a group |
| DagRuns.Progress | libmpaxos/utils/mpr_dag.h:81-106 | while anything is pending the oldest pending request is released |
| DagRuns.GroupOrder | libmpaxos/utils/mpr_dag.h:67-153 | each group finishes its requests in push order |
| DagRuns.Drains | libmpaxos/async.c:150-160 | whatever the order in which requests are handed out and finish, it ends after a fixed number of steps with every request finished |
| DagRuns.Served | libmpaxos/async.c:150-160 | while others are pushed all the time, a request waits for at most as many pops of requests pushed no later than it as there were; until it is finished one of those runs |
| DagRuns.HandedInOrder | libmpaxos/utils/mpr_dag.h:162-187 | the k-th white request of the field is the k-th to be handed out from then on, whatever is pushed and finishes meanwhile |
| DagOrder.WithoutWaiting | libmpaxos/utils/mpr_dag.h:115-126 | taking away a request that runs takes it from the front of each of its queues, as often as it names them, and nothing else |
| RpcBuf.Buf.Readjust | libmpaxos/rpc/buf.c:23-32 | the loop ends with room for the bytes asked for and the same content, at the first doubling of the size that is enough |
| RpcBuf.Buf.Realloc | libmpaxos/rpc/buf.c:37-50 | compacting or growing keeps the content |
| RpcBuf.Buf.Write | libmpaxos/rpc/buf.c:52-57 | the bytes join the content at the end |
| RpcBuf.Buf.Read | libmpaxos/rpc/buf.c:59-70 | at most the bytes asked for are taken from the front |
| RpcBuf.Buf.Peek | libmpaxos/rpc/buf.c:72-81 | the same bytes, left in place |
| RpcBuf.Buf.FromSock | libmpaxos/rpc/buf.c:107-132 | all bytes that have arrived join the content, however many rounds it takes |
| RpcFrame.Send | libmpaxos/rpc/server.c:287-321 | the send buffer gets exactly one frame: size, id, data |
| RpcFrame.FrameBytes | libmpaxos/rpc/server.c:299-315 | byte by byte: four of the length and two of the id, the lowest first, then the data |
| RpcFrame.Reader.TakeMessages | libmpaxos/rpc/server.c:185-223 | the loop delivers the whole frames in the buffer and leaves the rest, or stops at a size of zero |
| RpcFrame.Reader.HandleRead | libmpaxos/rpc/server.c:174-223 | what arrived joins what was left, and the whole frames in both are delivered |
| RpcFrame.ParseJoin | libmpaxos/rpc/server.c:185-223 | reading in two parts is reading at once |
| RpcFrame.ParsePrefix | libmpaxos/rpc/server.c:185-223 | from any beginning of a stream of nonempty messages exactly the complete ones are delivered, in order |
| RpcFrame.AllDeliveredIff | libmpaxos/rpc/server.c:190 | the reader survives a whole stream exactly if no message is empty, and then delivers all |
| RpcFrame.CutsDoNotMatter | libmpaxos/rpc/server.c:174-223 | how the bytes are cut into arrivals makes no difference |
| RpcFrame.DeliveredInOrder | libmpaxos/rpc/server.c:174-223 | for every list of nonempty messages and every way to cut any beginning of its stream the delivered ones are a beginning of the list with every message that has arrived |
| Bytes.LeRoundTrip | libmpaxos/rpc/server.c:307-309 | a number below 256^k survives being written in k bytes, lowest first |
| Bytes.LePlaces | libmpaxos/rpc/server.c:307-309 | two and four bytes of a number, place by place |
| PbVarint.UInt32Size | protobuf-c/protobuf-c.c:193-206 | the threshold tests give the number of bytes of the varint |
| PbVarint.UInt64Size | protobuf-c/protobuf-c.c:259-279 | the tests of the upper half give the number of bytes of the varint |
| PbVarint.TagLength | protobuf-c/protobuf-c.c:173-187 | the thresholds for a tag give the number of bytes of id and wire type together |
| PbVarint.VarintReads | protobuf-c/protobuf-c.c:517-541 | a varint is one byte string that ends at its first byte without the high bit, and spells the number |
| PbWriter.UInt32Pack | protobuf-c/protobuf-c.c:517-541 | the nested branches write the varint of a 32-bit number at the place given, and nothing else |
| PbWriter.UInt64Pack | protobuf-c/protobuf-c.c:578-605 | bytes from the lower half, from both halves and from the upper half make the varint of the whole number |
| PbWriter.TagPack | protobuf-c/protobuf-c.c:722-729 | the tag bytes carry id and wire type, for ids on both sides of 2^29 |
| PbPack.PrefixedMessagePack | protobuf-c/protobuf-c.c:705-718 | a submessage written one byte ahead and moved up by the size of its length ends as length and bytes |
| PbPack.LengthByte | protobuf-c/protobuf-c.c:958-961 | the length of a packed payload takes at most one byte more than was left for it, so the assertion holds |
| PbPack.PrefixedNumsPack | protobuf-c/protobuf-c.c:877-967 | a packed field written behind a guessed length and moved up by one byte if needed ends as length and numbers |
| PbPack.RequiredFieldPack | protobuf-c/protobuf-c.c:731-781 | the tag and the value of one field, by its type |
| PbPack.MessagePack | protobuf-c/protobuf-c.c:991-1030 | the array holds exactly the packed message at the place given, the count is its length, and nothing else changed |
| PbSize.MessageSize | protobuf-c/protobuf-c.c:480-509 | the size computed beforehand is the number of bytes that packing writes |
| PbSize.FieldSize | protobuf-c/protobuf-c.c:388-464 | the size of a field, with one tag for each value or one for the packed whole |
| PbBuffer.Buffer.Append | protobuf-c/protobuf-c.c:140-165 | the doubling buffer appends the bytes and keeps what it held |
| PbBuffer.MessagePackToBuffer | protobuf-c/protobuf-c.c:1352-1390 | the same bytes as the array writer are appended, through scratch arrays and buffers of submessages, and the count is their number |
| PbRanges.IntRangeLookup | protobuf-c/protobuf-c.c:1394-1433 | the binary search ends with the index a linear scan of the expanded ranges would find, or -1 if there is none |
| PbReader.ParseTag | protobuf-c/protobuf-c.c:1435-1462 | the loop reads id and wire type from at most five bytes, or fails |
| PbReader.ScanPrefixed | protobuf-c/protobuf-c.c:1476-1503 | the loop reads a length of at most five bytes; its sum with the prefix is cut to 32 bits and checked against the bytes there are, and 0 means an error |
| PbLengths.LengthIsExact | protobuf-c/protobuf-c.c:1496-1503 | the result is wrong exactly if the length is more than 2^32 - 5, or is 2^32 - 5 with all its bytes there: then the sum is 0 and the item is rejected |
| PbLengths.LargestLength | protobuf-c/protobuf-c.c:1498-1502 | for FF FF FF FF 0F, the length 2^32 - 1, the result is 4, one less than the prefix |
| PbLengths.WrappedScan | protobuf-c/protobuf-c.c:2396-2419 | after a wrapped length the scan goes on inside the prefix, where the next tag always fails |
| PbReader.ParseUInt32 | protobuf-c/protobuf-c.c:1725-1741 | seven bits from each of at most five bytes, the excess of the fifth cut off |
| PbReader.ParseUInt64 | protobuf-c/protobuf-c.c:1773-1791 | seven bits from each byte |
| PbReader.ScanVarint | protobuf-c/protobuf-c.c:1997-2009 | the length of the varint in front, or 0 |
| PbSlabs.Slabs.Add | protobuf-c/protobuf-c.c:2421-2438 | a member joins the current slab or a new one of twice the size; it fails exactly if all 23 slabs are full |
| PbSlabs.Slabs.ReadAll | protobuf-c/protobuf-c.c:2515-2530 | reading slab after slab gives the members in the order in which they were scanned |
| PbUnpacker.FindField | protobuf-c/protobuf-c.c:2342-2359 | the last field again or the table: always the field with that id, if there is one |
| PbUnpacker.ScanAll | protobuf-c/protobuf-c.c:2330-2465 | the first pass scans the bytes into members and marks the required fields seen, or fails, or counts numbers beyond the data, each exactly when the specification says so |
| PbUnpack.OverrunsIff | protobuf-c/protobuf-c.c:2440-2457 | the first pass counts beyond the data exactly if it comes to a repeated number field whose length wraps, with fewer members before it than the slabs hold |
| PbUnpack.NeverOverruns | protobuf-c/protobuf-c.c:2440-2457 | in a schema without repeated number fields no bytes whatever make unpacking do so, not even in submessages |
| PbUnpack.RepeatedOverruns | protobuf-c/protobuf-c.c:2440-2457 | 0A FF FF FF FF 0F does so for a repeated number in field 1 |
| PbUnpacker.RoomIsExact | protobuf-c/protobuf-c.c:1505-1512 | a packed field fills exactly the room that the first pass counted for it |
| PbUnpacker.MessageUnpack | protobuf-c/protobuf-c.c:2274-2549 | the two passes compute what unpacking means: scan, check of required fields, parse of every member in order; what that gives is said for all bytes by the rows of PbMeaning; the outcome Overrun stands for counting beyond the data |
| PbMeaning.MissingFails | protobuf-c/protobuf-c.c:2494-2502 | in a type of at most 128 fields a message without a member for some required field is rejected |
| PbMeaning.OneForAnother | protobuf-c/protobuf-c.c:2300-2312 | with more fields one required field stands for another whose number differs by a multiple of 128 |
| PbMeaning.UnpackedFields | protobuf-c/protobuf-c.c:2515-2530 | whatever bytes unpack: the members give the fields their values in order, the last one to a singular field, all of them to a repeated one; the others are kept as unknown |
| PbMeaning.UnpackedTyped | protobuf-c/protobuf-c.c:2274-2549 | the converse of the round trip: whatever bytes unpack, unpack to a message in which every required field has one value, every optional one at most one, and every value fits its kind, in submessages as well |
| PbMeaning.NormalForm | protobuf-c/protobuf-c.c:2274-2549 | what was unpacked, packed again, unpacks to the same message |
| PbMeaning.GivenWire | protobuf-c/protobuf-c.c:1826-1926 | a member gives values only with the wire type of its field, or packed numbers of a repeated one: the bytes behind the length, or the low bits of the number |
| PbMeaning.SecondMerges | protobuf-c/protobuf-c.c:1928-1957 | a second value for a singular message, and no other, is merged with the first |
| PbMeaning.FixedItems | protobuf-c/protobuf-c.c:2388-2414 | wire type 1 takes eight bytes and wire type 5 four, or the scan fails |
| PbMeaning.OtherWires | protobuf-c/protobuf-c.c:2415-2419 | the wire types 3, 4, 6 and 7 are errors |
| PbMeaning.TagMeans | protobuf-c/protobuf-c.c:1435-1462 | a tag is a number in at most five bytes that ends at the first byte without the high bit, with the wire type in its low three bits; without such a byte there is none |
| PbRoundTrip.ScansPacked | protobuf-c/protobuf-c.c:2330-2465 | scanning a packed message gives exactly its fields, packed fields and unknown fields, in order |
| PbRoundTrip.RoundTrip | protobuf-c/protobuf-c.c:2274-2549 | unpacking a packed message gives it back, for every well-formed message of every schema: nested, optional, repeated, packed and unknown fields |
| PbMpaxos.PaxosMessagesSurvive | libmpaxos/mpaxos.pb-c.c:757-1408 | every message of a Paxos round survives packing and unpacking with the generated tables |
| PbMpaxos.PaxosNeverOverruns | libmpaxos/mpaxos.pb-c.c:757-1408 | no bytes received as a message of a Paxos round are overrun |
| PbMpaxos.RoundIdBytes | libmpaxos/mpaxos.pb-c.c:757-808 | the round id of group 7, slot 300 and ballot 1, byte by byte |
| PbMpaxos.PackedBytes | protobuf-c/protobuf-c.c:877-967 | a packed field with the numbers 3, 270 and 86942, byte by byte |
| PbMpaxos.SubmessageBytes | protobuf-c/protobuf-c.c:705-718 | the bytes of a submessage stand between tag and length and what follows |
| KvOperation.Wrap | libkvdb/operation.cpp:37-82 | wrap fails for an unknown code and otherwise fills a block of exactly the length computed before |
| KvOperation.WrappedLength | libkvdb/operation.cpp:45-54 | the length computed beforehand is the length of the block |
| KvOperation.StartIsProduct | libkvdb/operation.cpp:72-73 | the arguments of pair p start at index p times the number of arguments |
| KvOperation.TwoArguments | libkvdb/operation.h:58-62 | a PUT or BATCH_PUT of one pair is code, 1, table, and each of its two arguments behind its length |
| KvOperation.OneArgument | libkvdb/operation.h:60-61 | a GET or DEL of one pair is code, 1, table, and one argument behind its length |
| KvOperation.NoArgument | libkvdb/operation.h:58 | a NOP of one pair is code, 1 and table |
| KvOperation.PutBytes | libkvdb/operation.cpp:56-80 | a PUT in table 258, byte by byte |
| KvOperation.Unwrap | libkvdb/operation.cpp:92-139 | the moving offset reads code, pairs, tables and arguments, or reports a bad code or no pairs, or looks up a code below zero |
| KvOperation.CodeRejected | libkvdb/operation.cpp:96-102 | a code word that is no code is rejected exactly if it is below 2^31: the test against OP_NOP is unsigned, the other one signed |
| KvOperation.OutsideIff | libkvdb/operation.cpp:96-112 | the table is read at an index below zero exactly if the word is 2^31 or more and the block names a pair |
| KvOperation.MinusOneIsOutside | libkvdb/operation.cpp:96-112 | the word FF FF FF FF with one pair gives the index -1 |
| KvOperation.UnwrapWrap | libkvdb/operation.cpp:37-139 | unwrapping a wrapped operation gives it back exactly if it has a pair |
| PaxosExample.DecidesTwice | libmpaxos/controller.c:115-152 | a run in which one slot is decided after a prepare and the next without it, so the theorems speak of something |

## Left out

- fec_new, fec_encode, fec_decode: at most 255 data blocks and at most 255 requested check blocks, because the loop counters bounded by them are eight bits wide (`libzfec/fec.c:467`, `libzfec/fec.c:492`, `libzfec/fec.c:508-510`); beyond that the loops do not end (`FecCoder.CounterEnds`).
- FecCoder.Fec.Decode: n is at most 256, or k is 1. No counter is bounded by n; beyond 256 two evaluation points are the same and some k blocks do not determine the data (`FecCode.PointsAreDistinct`, `FecCode.AnyRowsIff`).
- FecVandermonde.InvertVdm: the comment promises the inverse for all distinct points (`libzfec/fec.c:325-335`), but every stage skips the lowest coefficient (`libzfec/fec.c:366`), which three or more points forgive only if one of the first two is 0; `fec_new` always passes 0 first (`libzfec/fec.c:434-436`).
- RsHelper.RsEncode: k divides the size of the data; otherwise some copy reads beyond the data (`libmpaxos/rs_helper.h:18-21`, `RsHelper.CopiesStayInside`).
- The restrict-qualified pointers of the coder are an array and an offset, and blocks given as arguments are different arrays; the magic number, `fec_free` and the memory of the tables are not part of this model.
- Proposals are values: the record of the largest proposal of a transaction may point into a group's record that is freed later (`libmpaxos/proposer.c:166-180`), which the model does not show.
- A proposal's payload is one opaque value; the coded values that `mpaxos_accept` puts beside it are not part of the Paxos model.
- Accepts of the system of many nodes carry one round id, as the broadcast asserts (`libmpaxos/proposer.c:523`), and a proposal is recorded under the round id of its slot; the group size is the number of nodes and every node belongs to every group (view.c is not part of this model).
- acceptor_forget (`libmpaxos/acceptor.c:71-89`): `PaxosSystem` and the results of `PaxosRuns` are without it. `PaxosForget` adds it; there agreement on a slot is proved while nobody has forgotten that slot or one of its group before it, and `PaxosForgetExample` has a run in which it fails afterwards.
- A node that stops on an equal ballot (`libmpaxos/acceptor.c:138-142`) stops as an acceptor; its transactions may go on, which allows more runs than the program has. Transactions may retry with any larger ballot, which the program never does (`libmpaxos/mpaxos.c:129`).
- A repeated answer of one node to one round stops the program (`libmpaxos/proposer.c:144`); in the model it is no step.
- PaxosNode.TxnRecord.CheckMajority: the no and uncertain results depend on the order of the hash table; the contract says how.
- Objects of the profile are named by numbers: functions by their id, cycles by the order of their creation; the depth limit of Python's recursion is left out.
- MprDag.Dag.Push: at least one group; a request without any would be released, and popping it would use a node that there is not.
- MprDag.Dag.Pop: the runs of `DagRuns` stop where a request whose first group is named again finishes; what the scheduler does with the request it has released after freeing it is not modelled.
- Capacities of the queues, blocking, interruption and the destruction of the scheduler are left out; each locked operation is one step.
- Sockets give all bytes that have arrived; partial sends, errors of the socket, threads and polling are left out, and buffer sizes are unbounded integers.
- RpcFrame.Reader.HandleRead: a message is delivered when it is handed to its function; those marked for a new thread may run later.
- PbUnpacker.MessageUnpack: a singular submessage that comes twice would be merged (`protobuf-c/protobuf-c.c:1523-1674`); the model stops with the outcome Merge. The packers never write such bytes.
- PbUnpacker.ScanAll: counting beyond the data ends the model with the outcome Overrun; the counts that stay inside are stated on their own (`PbUnpacker.RoomIsExact`).
- PbRoundTrip.RoundTrip: each length-prefixed item is shorter than 2^32 bytes, and no message has more members than the 23 slabs hold.
- PbMeaning.UnpackedTyped: at most 128 fields in a message type, as many as the bitmap of required fields has bits; with more, `PbMeaning.OneForAnother` has a required field stand for another one.
- PaxosContinue.NothingBlocks: the intended variant only; as coded a round that has heard of an accepted proposal never decides (`PaxosAgreement.AsCodedDecidesOwn`).
- Field types other than uint32, uint64, enum, bytes and message, default values, failing allocations, big-endian machines, and the freeing of messages.
- A message is a value, so a reader of the model does not see which arrays the runtime shares.
- KvOperation.Wrap: tables and argument lengths are below 2^32 and there are fewer than 2^31 pairs, as the four-byte fields and the signed loop counter need; a single table is kept like the others.
- KvOperation.Unwrap: on a block that is too short the source reads beyond it, and on a code below zero it reads before its table; the model says TooShort and OutsideTable. A complete block of 2^31 pairs or more, at which the signed loop counter would overflow, is read like the others.
- The learner and decide messages, the database helper, the slot manager, mutexes and configuration of MPaxos; the input parsers, time integration and drawing of the profiling script; the documentation scripts and benchmarks.
