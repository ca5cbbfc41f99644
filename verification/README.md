# Tomasulo scheduler model

A Dafny model of the scheduling core of a cycle-by-cycle Tomasulo simulator.
The simulator (`source.cpp`, struct `Tomasulo`) issues one instruction per
cycle in program order into reservation stations (add/sub, which also hold
BNE; mul/div) and load/store buffers. It renames source registers through a
register alias table (the source's `unidadeEscritora` per register), counts
execution latencies down, and grants a single common data bus (CDB) per cycle
in round robin between the add/sub, mul/div and load classes. Stores commit to
memory in issue order. A conditional branch (BNE) stalls issue until it
resolves on the bus.

The model is functional: one immutable `SimState` record holds the program
with its four cycle stamps per instruction, the register file, the alias
table, the four slot pools, memory, the CDB round-robin pointer, the branch
controller and the fetch pointer. Each phase of a cycle is a pure function
of that record:

- `Cdb.WriteBack` models `escreverResultado_CDB_unico`.
- `Commit.CommitStores` models `escreverResultado_STOREs`.
- `Execute.Execute` models `executar`, with `Disambiguation.CheckLoad`
  standing for `checarHazardLoadEForward`.
- `Scheduler.Redirect` models the branch redirect in the simulation loop.
- `Issue.Issue` models `emitirInstrucao`.
- `Scheduler.PendingWork` models `haTrabalhoPendente`.
- `Scheduler.Step` is one iteration of the loop in `Simular`, in the same
  phase order.

`Machine.Valid` is the invariant every phase keeps:

- every alias-table entry names an occupied producer slot whose destination
  is that register;
- every waiting operand names an occupied producer;
- a station whose countdown has reached zero has both operands;
- the branch record stays in range.

Slot names such as "ADD0", "MUL1" and "LOAD2" are modelled as tags
`Tag(unit, index)`. Stores never broadcast, so no tag names a store buffer.
Cycle stamps are `Option<nat>`, where `None` stands for the source's -1.

One behaviour of the source is reproduced rather than corrected. An
instruction issued a second time (after a backward branch) gets a new issue
stamp but keeps the write stamp of its first execution, and the bus and the
store commit skip any slot whose instruction already has a write stamp. Such
a slot therefore never frees, and the loop never reports that it has
finished. `Scheduler.StuckStationNeverFinishes` proves this for the add/sub
pool; the second "## Findings" row records it with a corrected stamping.

## Model

| member | source | states |
|---|---|---|
| Memory.Read | source.cpp:36-41 | An address held by no cell reads 0; a non-zero result is the value of a cell holding that address |
| Memory.Write | source.cpp:43-55 | Writing an address already present keeps the number of cells, writing a new one appends exactly one cell, and the address is present afterwards |
| Memory.ReadAfterWrite | source.cpp:36-55 | Reading the address just written yields the written value |
| Memory.ReadOtherAfterWrite | source.cpp:36-55 | Writing one address leaves every other address reading as before |
| Memory.WriteAddresses | source.cpp:43-55 | After a write the cells hold exactly the old addresses plus the written one |
| Memory.WriteKeepsDistinct | source.cpp:43-55 | A write never creates a second cell for an address that already has one |
| Registers.RegIndex | source.cpp:232-237 | The result is -1 or a valid index; it is an index exactly when the name has at least two characters, starts with 'F' or 'f' and its atoi value lies in 0 .. count-1, and then it is that value |
| Registers.AtoiOfDecimal | source.cpp:234 | atoi reads the decimal spelling produced by to_string back as the same number |
| Registers.RegIndexOfName | source.cpp:308-312 | The register file's own name "F" + i maps back to index i |
| Registers.RegNameInjective | source.cpp:308-312 | Distinct registers have distinct names, so a lookup by name can match at most one register |
| Registers.ReadRegisterByName | source.cpp:30-34 | The value read for a spelling is the value of the register whose name is exactly that spelling, and 0 when no register has that name |
| Registers.ReadByNameAgreesOnCanonicalNames | source.cpp:30-34 | For a canonical name "F" + i the by-name read and the by-index read agree |
| Registers.LowercaseOperandReadsZero | source.cpp:30-34 | With F1 = 5 the operand "f1" is register 1 for the alias table yet reads 0 from the register file |
| Machine.Initial | source.cpp:278-312 | The start state satisfies the invariant and holds the given program and register values; the pools have the configured sizes and every slot is free; no alias, stamp or pending branch is set; memory is empty; each latency is the configured cycle count raised to 1 when it is below 1 (`max(1, x)`, for any integer setting); cycle 1 and fetch pointer 0 |
| Machine.FirstFree | source.cpp:399-421 | The result is -1 exactly when every slot is busy; otherwise the slot it names is free and every lower slot is busy |
| Machine.TruncDivIsCppDivision | source.cpp:883 | The quotient is C++'s truncating division: the remainder is smaller than the divisor in magnitude and never has the opposite sign of the dividend |
| Machine.Compute | source.cpp:879-883 | Division by zero gives 0, a non-zero division truncates toward zero, and an opcode without an arithmetic meaning gives 0 |
| Issue.ReadOperand | source.cpp:601-611 | A register with a pending producer gives that producer's tag; otherwise it gives the register's value by index, which equals the by-name read of its canonical name |
| Issue.IssueArith | source.cpp:585-657 | A stall happens exactly when the station pool is full; an operand naming no register aborts; a successful issue fills the lowest free station, reads both sources through the alias table, points the destination's alias at the new station and stamps the issue cycle |
| Issue.IssueBne | source.cpp:658-692 | A BNE stalls exactly when the add/sub pool is full; otherwise it takes the lowest free add/sub station with a countdown of 1 and no destination, marks the branch pending and unresolved at its index, and leaves the alias table alone |
| Issue.IssueLoad | source.cpp:522-554 | A load stalls exactly when no load buffer is free; otherwise it takes the lowest free one, reads its base through the alias table and becomes the pending producer of its destination register |
| Issue.IssueStore | source.cpp:555-584 | A store stalls exactly when no store buffer is free; otherwise it takes the lowest free one, reads base and value through the alias table and changes no alias |
| Issue.Issue | source.cpp:516-696 | Past the end the result is -2 and nothing changes; a pending branch gives -1; an unknown opcode is skipped without effect; a successful issue stamps only that instruction with the current cycle |
| Issue.AdvancesMatchesReturnCode | source.cpp:1204-1206 | The fetch pointer advances exactly for the outcomes whose return code is neither -1 nor -2: an issue or a skipped unknown opcode |
| Issue.IssueKeepsOccupied | source.cpp:399-421 | Issue never touches an occupied add/sub station |
| Issue.IssuePreservesValid | source.cpp:516-696 | Issue keeps the state invariant, so every alias and waiting operand still names a live producer |
| Disambiguation.ScanStoresMeets | source.cpp:484-505 | After scanning n buffers: blocked exactly when some older store has an unknown address or writes the load's address with an unknown value; the best stamp is -1 exactly when there is no older ready store to that address, and otherwise it is the largest issue stamp among them, with the value of the lowest-numbered buffer carrying that stamp (the scan replaces its choice only on a strictly larger stamp) |
| Disambiguation.CheckLoad | source.cpp:470-514 | A load with an unresolved base waits; otherwise it waits exactly when some older store blocks it; a value is forwarded exactly when it does not wait and some older ready store writes its address, and the value comes from the youngest such store, the lowest-numbered buffer among those sharing its issue stamp |
| Disambiguation.CheckLoadReadsIssueOnly | source.cpp:484-488 | The hazard check reads no stamp but the issue stamps (`emitido`): two stamp records that agree on them give the same decision and forwarded value |
| Execute.Tick | source.cpp:706-727 | A slot issued this cycle neither starts nor counts down; otherwise the start is stamped once, the countdown drops by one while positive, and the end is stamped exactly on reaching zero; issue and write stamps are untouched |
| Execute.ExecStation | source.cpp:754-775 | A station with an unknown operand is left as it is; otherwise only its countdown and its instruction's stamps move, as one tick |
| Execute.ExecStore | source.cpp:730-752 | A store buffer with unknown base or value is left as it is; otherwise only its countdown and stamps move, as one tick |
| Execute.ExecLoad | source.cpp:699-728 | The hazard check's forwarding decision is recorded; a blocked load does not move; when the countdown reaches zero the result is the forwarded value or else memory at base plus offset |
| Execute.ExecStations | source.cpp:754-797 | Every station in the pool steps at most one cycle; a station whose instruction no other occupied station of the pool runs changes exactly as one ExecStation; an instruction that no occupied station runs keeps its stamps |
| Execute.ExecStores | source.cpp:730-752 | Every store buffer steps at most one cycle; a buffer whose instruction no other occupied buffer runs changes exactly as one ExecStore; an instruction that no occupied buffer runs keeps its stamps |
| Execute.ExecLoads | source.cpp:699-728 | Every load buffer steps at most one cycle; an instruction that no occupied load buffer runs keeps its stamps |
| Execute.ExecLoadsRunsUnique | source.cpp:699-728 | A load buffer whose instruction no other buffer runs ends the pass exactly as one `ExecLoad` against the stamps the pass started from, although earlier loads of the pass may have stamped their own instructions |
| Execute.ExecuteRunsLoad | source.cpp:699-728 | After the execute phase such a load buffer is exactly one `ExecLoad` against the cycle's store buffers, stamps and memory: it records the hazard decision, does not move when blocked, and on reaching zero holds the forwarded value or else memory at base plus offset |
| Execute.Execute | source.cpp:698-799 | Execution changes only the pools and stamps; no slot is freed or filled, countdowns drop by at most one and only with known operands, issue and write stamps are kept, and instructions held by no slot keep all their stamps |
| Execute.ExecutePreservesValid | source.cpp:698-799 | Execution keeps the invariant and every producer slot with its destination |
| Cdb.FirstEligible | source.cpp:807-813 | The result is -1 exactly when no slot of the class may broadcast; otherwise it is the lowest slot that may |
| Cdb.SelectFrom | source.cpp:803-806 | From a given turn on, nothing is selected exactly when no class visited in rotation has an eligible slot; a selection comes from the first such class and is its lowest eligible slot |
| Cdb.TurnsCoverAllUnits | source.cpp:803-804 | Three turns from any round-robin position visit every class |
| Cdb.Select | source.cpp:801-806 | The bus stays idle exactly when no slot of any class is eligible; otherwise it goes to the lowest eligible slot of the first class with one, counting from the round-robin pointer |
| Cdb.Broadcast | source.cpp:423-468 | Every occupied slot of every pool that waits for the tag receives the value, in each waiting operand; nothing else changes |
| Cdb.BroadcastReachesEveryone | source.cpp:423-468 | After a broadcast no slot waits for the broadcast tag |
| Cdb.BranchTarget | source.cpp:822-824 | The target is the branch index plus 1 plus the offset, clamped into 0 .. n |
| Cdb.RetireMeets | source.cpp:841-868 | A producer's bus turn stamps its write cycle, writes its register and clears the alias only when the alias still names it, broadcasts its value to every other slot and frees its own slot, changing nothing else |
| Cdb.ResolveBranchMeets | source.cpp:814-839 | An eligible slot that is not a producer is a BNE; its turn resolves the branch as taken exactly when its operands differ, records as target exactly `BranchTarget` (index + 1 + offset clamped to 0 or n) when taken, stamps it and frees its station without any broadcast |
| Cdb.WriteBack | source.cpp:801-940 | When nothing is eligible the state is unchanged; otherwise exactly the selected slot retires or resolves its branch, and the round-robin pointer moves to the class after the winner |
| Cdb.WriteBackPreservesValid | source.cpp:801-940 | The bus phase keeps the state invariant |
| Commit.CandidatesFrom | source.cpp:946-953 | The list holds exactly the candidate store buffers, meaning occupied, countdown over, end stamped and not yet written, in increasing slot order |
| Commit.SortByIssue | source.cpp:957-958 | The result is sorted by issue cycle and is a permutation of its input |
| Commit.CommitOrder | source.cpp:943-958 | The visit order is sorted by issue cycle and contains exactly the candidates |
| Commit.CommitInOrderLastWriter | source.cpp:960-977 | After a visit, an address holds the value of the last visited buffer that writes it |
| Commit.CommitStores | source.cpp:942-978 | Exactly the candidates with known base and value are freed and get their write stamp; every other buffer and stamp is unchanged, and only memory, stamps and store buffers change |
| Commit.LastIssuedStoreWins | source.cpp:942-978 | An address written by several committing stores ends with the value of the latest-issued one |
| Commit.UnwrittenAddressKept | source.cpp:942-978 | An address that no committing store writes keeps its value |
| Commit.CommitPreservesValid | source.cpp:942-978 | Store commit keeps the state invariant |
| Scheduler.Redirect | source.cpp:1191-1202 | A resolved branch sends the fetch pointer to its target when taken and to the instruction after it otherwise, and clears the branch record; without a resolution nothing changes |
| Scheduler.PendingWork | source.cpp:980-995 | The pool-by-pool scan returns true exactly when an instruction can still be issued, any slot is occupied, or an issued instruction has not written back |
| Scheduler.TryIssue | source.cpp:1204-1206 | Issue is attempted only with no branch pending and the pointer inside the program; otherwise the cycle counts as a stall and the state is unchanged |
| Scheduler.Step | source.cpp:1185-1216 | One loop iteration keeps the invariant; it continues, with the cycle counter advanced, exactly when work is still pending, and otherwise it finishes with the counter unchanged |
| Scheduler.Conclude | source.cpp:1207-1216 | The pointer advances after an issue or a skip and not after a stall; a bad register aborts; the loop stops exactly when no work is pending; nothing but the two counters changes |
| Scheduler.StuckStationNeverFinishes | source.cpp:807-813 | An add/sub station whose instruction already has a write stamp stays occupied by the same instruction across a step, and the step never reports that the simulation finished |
| Scheduler.AsWrittenStampKeepsStuck | source.cpp:594-598 | With the issue stamping as written, issuing again the instruction of a stuck station leaves it stuck, and the bus never finds a stuck station eligible in any cycle |
| Scheduler.FreshStampUnsticks | source.cpp:594-598 | With the fresh stamping, no station holding the re-issued instruction is stuck, and one whose countdown is over is eligible for the bus in every cycle |
| Scheduler.PendingBranchStallsIssue | source.cpp:1204-1206 | While a branch is pending after the redirect, the step issues nothing: the fetch pointer and all issue stamps are unchanged |
| Scheduler.BranchRedirectsFetch | source.cpp:1191-1202 | A BNE that wins the bus moves the fetch pointer in the same cycle to its clamped target when its operands differ and to the next instruction otherwise, and clears the branch record |
| Scheduler.OneIssuePerStep | source.cpp:1204-1206 | A step changes at most one issue stamp: that of the instruction at the redirected fetch pointer, which is set to the current cycle |
| Scheduler.IdleMachineIsFixpoint | source.cpp:980-995 | With every slot free, the write-back, commit and execute phases change nothing, so the finish test loses no work |

## Left out

- File parsing (`carregarDadosDoArquivo`), screen rendering, the event log, console waits and `system("cls")` are I/O. They are not part of this model. `Machine.Initial` takes the parsed program, register values, cycle settings and pool sizes as parameters.
- Machine.Initial: pool sizes are natural numbers. A negative size read from the file makes the source's `new T[n]` fail, which is not modelled.
- Issue.IssueArith / IssueLoad / IssueStore / IssueBne: a ready operand is read by register index (`Issue.ReadOperand`), the corrected behaviour of the first "## Findings" row. The source reads it by exact name, which `Registers.ReadRegisterByName` models.
- Issue.StampFresh: the step model issues with the stamping as written (`Issue.StampIssued`), so that the livelock of the second "## Findings" row stays provable. The fresh stamping is stated and proved on its own and is not used by `Scheduler.Step`. A full repair would also need per-slot stamps, because two slots can hold the same instruction and share one stamp record.
- 32-bit integers are unbounded here. Overflow in `+`, `-`, `*` and address computation is not modelled, and neither is the undefined `INT_MIN / -1`.
- Machine.Compute: states only the division cases and the non-arithmetic default. The sum, difference and product are the plain integer operations.
- Commit.LastIssuedStoreWins: stores with the same issue stamp are ordered by slot index. `std::sort` is not stable and leaves that order unspecified. Equal stamps arise only when the same store instruction is issued again while its first buffer is still occupied.
- Issue.Issue: an operand that names no register makes the source throw `runtime_error`, which ends the program. Here the outcome `BadRegister` and the step result `Aborted` stand for the throw. The state reached before the throw is not modelled.
- Memory keys: the source keys memory cells by `to_string(address)`. Since `to_string` is injective on integers, the model keys cells by the integer itself.
- Load and store buffers carry their own `offset`, which the source copies from the instruction's immediate at issue. The model uses the buffer's copy where the source reads `instrucao->offsetImediato`; the two are equal.
- The `ciclosRestantesExecucao` stamp is a display copy of the slot countdown and is not modelled. The same goes for slot names and the cleared fields of a freed slot.
- Machine.ValueOf: a waiting operand has no literal in the model. The source keeps a stale number there, which nothing reads before the tag clears.
- `eNumero`, `eNumeroComSinal` and the other parsing helpers are outside the scheduling core.

## Findings

| source | as written | input that shows it | evidently intended | confidence | as-written member | corrected member |
|---|---|---|---|---|---|---|
| source.cpp:30-34 | At issue, a ready operand's value is read by comparing the operand's spelling with the register names "F0", "F1", ... The alias check uses `regIndex`, which also accepts "f1", "F01" or "F1x" | register F1 = 5, no pending writer of F1, and an ADD whose first source is spelled `f1`: the alias table says F1 is ready, and the value read is 0 instead of 5 | read the value of register `regIndex(name)`, the register the alias table checked | medium, not executed | Registers.LowercaseOperandReadsZero | Issue.ReadOperand |
| source.cpp:594-598 | A second issue of the same instruction (after a backward BNE) sets only the issue stamp (`emitido`, also at source.cpp:532, 565, 633 and 669). The write stamp of the first execution stays, and the bus (source.cpp:812, 877, 913) and store commit (source.cpp:951) skip any slot whose instruction has a write stamp | a loop `ADD F1,F1,F2; BNE F1,F3,-2` with enough add/sub stations: the ADD's first execution writes back, the BNE is taken, and the re-issued ADD finishes counting down but is never selected by the bus, so its station never frees and the simulation never ends | a re-issue starts from a fresh stamp record (and, for instructions in flight twice, per-slot stamps), so the new slot can write back | high, not executed | Scheduler.StuckStationNeverFinishes | Scheduler.FreshStampUnsticks |
