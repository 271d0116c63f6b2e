# Verified model of the BMS firmware core

This project models the algorithms and protocols at the core of the Libre Solar BMS firmware and
proves what they keep over every input, every run and every fault of the bus:

- **Balancing (bq769x0).** The work handler sorts the cells above a threshold in place, takes them
  greedily so that no two neighbours are on, and packs the section masks into one status word. The
  sections have any number of cells where the question is how good the choice is, and five where it is
  about registers. Several writers and failing transfers share the CELLBAL registers.
- **Indirect memory (bq769x2).** Select, poll, length, data, checksum over a window of direct commands,
  with an optional CRC after each byte. Driver and emulated chip are two classes joined by a link on
  which any transfer, read or write, may fail or arrive as other bytes; together they refine a plain map
  of bytes. A corrupted write that the chip nevertheless takes is counted as a slip: without CRC that can
  be any, with CRC never one with a single altered byte. What the driver promises about data memory over
  a faulty bus is promised for calls without a slip.
- **State of charge.** The lazily flushed, clamped coulomb counter against the exact clamped integrator,
  and the table interpolator that is used in both directions.
- **Supervisory state machine.** Five states over the two FET bits of SYS_CTRL2, with the driver's
  read-modify-write and with transfers that may be lost.
- **Protection.** Temperature flags with hysteresis as one-bit summaries of history, the retry schedule
  for chip faults, trip and limit encoders with write-back, and the shadow of the FET commands in the
  ISL94202 driver.

`float` is modelled as `real`; register words are natural numbers or bit-vectors with their truncations
written out. Time, bus outcomes and chip answers are parameters. Code that updates fields, arrays or
registers is a class or a method with loops, each proved against a specification function; the
properties of a whole run are lemmas about that function.

`dafny verify dfyconfig.toml` checks the project. There is one module per file.

Where the code does not do what its name, comments or callers suggest, the model follows the code and a
lemma shows the case:

- a clearing balancing write that fails is not repeated, because the status word becomes 0 anyway
  (`FailedClearIsNeverRepeated`), and reading balancing data overwrites the handler's status word
  (`RegistersStick`);
- an under-voltage ADC code of 0x1FF0 to 0x1FFF wraps to the lowest trip (`UvTripExactly`), and the fraction
  of a mV dropped from the limit can put the trip up to 1 mV below it (`TripsInVolts`);
- the code of a negative over-current limit wraps, and the value written back settles only under a
  condition on the limit and the board (`OverCurrentSettlesExactly`, with `NegativeLimitUnsettled` as an
  instance that does not);
- ISL94202 delays from 61440 s on run into the unit field (`LongSecondsOverflow`);
- a switch-off whose transfers are lost is not repeated in state OFF (`LostSwitchOffStays`); which losses
  break the agreement of FETs and state is stated exactly (`StepAgreesExactly`);
- a failed read of an ISL94202 sensor is not noticed, and the sensor gets the reading of the one before
  it (`ReadTemperatures`);
- a negative temperature hysteresis breaks every temperature flag (`NegativeHysteresisFails`);
- a reset of the state of charge leaves the pending charge in place (`Soc.Estimator.SetPercent`); the
  tracking bound is proved with that.

## Model

| member | source | states |
|---|---|---|
| BalancingSelection.OrderedListUnique | drivers/bms_ic/bq769x0/bq769x0.c:880-898 | descending voltage, ties by cell number, and the set of members together leave one possible list |
| BalancingSelection.InsertAt | drivers/bms_ic/bq769x0/bq769x0.c:887-896 | the specification of one insertion: any position with no lower cell before it and only lower cells behind it gives the same list |
| BalancingSelection.Sorted | drivers/bms_ic/bq769x0/bq769x0.c:880-898 | the list holds exactly the cells above vMin + diff, each once, by falling voltage and stable |
| BalancingSelection.ChosenIsStable | drivers/bms_ic/bq769x0/bq769x0.c:900-912 | the greedy pass takes only candidates, no two neighbours, and every candidate left out has a chosen neighbour that precedes it |
| BalancingSelection.StableSelectionUnique | drivers/bms_ic/bq769x0/bq769x0.c:879-912 | that description fits one set only: a set is stable if and only if it is the one the code chooses |
| BalancingSelection.ChosenIsMaximal | drivers/bms_ic/bq769x0/bq769x0.c:900-912 | no candidate can be added, a rejected one has a chosen neighbour of at least its voltage, and the hottest candidate is always chosen |
| BalancingSelection.ExchangePrefix | drivers/bms_ic/bq769x0/bq769x0.c:879-912 | the exchange argument on every prefix of the section: what another selection gains on its last cell is owed by the chosen right neighbour |
| BalancingSelection.GreedyIsHalfOptimal | drivers/bms_ic/bq769x0/bq769x0.c:879-912 | total excess voltage of the chosen cells is at least half that of every other adjacency-free set of candidates, for any section length, whenever no candidate lies below vMin: for every threshold of at least 0, and for every threshold when vMin is the minimum of these cells |
| BalancingSelection.HalfOptimalNeedsThreshold | drivers/bms_ic/bq769x0/bq769x0.c:479-513 | for every negative threshold the bound fails once a cell at 0.5 V, which the minimum ignores, is among the candidates |
| BalancingSelection.HalfIsTight | drivers/bms_ic/bq769x0/bq769x0.c:900-912 | the factor one half cannot be improved |
| Bits.BitExactly | drivers/bms_ic/bq769x0/bq769x0.c:841-843 | bit i is the parity of the word divided by 2^i |
| Bits.ShiftsExactly | drivers/bms_ic/bq769x0/bq769x0.c:841-843 | shifts multiply and divide by powers of two |
| BalancingDriver.SectionMaskIsChosen | drivers/bms_ic/bq769x0/bq769x0.c:900-912 | the bits of the register value computed with shifts and collision masks are exactly the greedily chosen set |
| BalancingDriver.InsertCell | drivers/bms_ic/bq769x0/bq769x0.c:889-896 | the in-place shifting loop performs one insertion of the specification |
| BalancingDriver.SortCandidates | drivers/bms_ic/bq769x0/bq769x0.c:880-898 | the array after the loop is the stable descending candidate list |
| BalancingDriver.PickCells | drivers/bms_ic/bq769x0/bq769x0.c:900-912 | the loop over the sorted array computes the greedy register value |
| BalancingDriver.SectionMaskIsSafe | drivers/bms_ic/bq769x0/bq769x0.c:900-917 | every automatically written value is at most 31 and has no two adjacent bits |
| BalancingDriver.SectionCells | drivers/bms_ic/bq769x0/bq769x0.c:879-912 | one section bit by bit: on only above the threshold and never next to another cell that is on; off above the threshold only beside a neighbour that is on and higher, or as high and before it |
| BalancingDriver.AutoCells | drivers/bms_ic/bq769x0/bq769x0.c:879-917 | the same on the measured voltages themselves, for cell 5k + j, bit 5k + j of the status word and bit j of register k, with any writes failing |
| BalancingDriver.ManualTestIsSafety | drivers/bms_ic/bq769x0/bq769x0.c:841-846 | the shift test of the manual path lets a section through if and only if its register value is safe |
| BalancingDriver.ManualExactly | drivers/bms_ic/bq769x0/bq769x0.c:835-857 | a manual request bit by bit: register k gets the five requested bits if every section up to it has no adjacent cells and its write arrives, else keeps its value; which of the two stopped it is what is returned |
| BalancingDriver.PackedSplits | drivers/bms_ic/bq769x0/bq769x0.c:914 | the packed status word cut into sections gives the section masks back, without carry between sections |
| BalancingDriver.ManualAcceptsAuto | drivers/bms_ic/bq769x0/bq769x0.c:835-917 | the status word of an automatic run, given to the manual path, is accepted and writes the same registers |
| BalancingDriver.IssuedIsSafe | drivers/bms_ic/bq769x0/bq769x0.c:835-942 | every write that any automatic run, manual request or clear puts on the bus carries a safe value |
| BalancingDriver.HandlerExactly | drivers/bms_ic/bq769x0/bq769x0.c:869-939 | what due means, in the three measurements and two limits, and what a run that is not due leaves in each register and in the status word |
| BalancingDriver.InterleavingIsSafe | drivers/bms_ic/bq769x0/bq769x0.c:835-942 | in every interleaving of the single writes of any requests, with any writes failing, no register ever holds adjacent bits or a value above 31 |
| BalancingDriver.HandlerCoherence | drivers/bms_ic/bq769x0/bq769x0.c:859-942 | after a handler run the status word shows the registers if and only if every failed write was to a register that already held its value |
| BalancingDriver.CoherentOverRuns | drivers/bms_ic/bq769x0/bq769x0.c:859-942 | over every series of handler runs with successful writes the status word shows the registers |
| BalancingDriver.RegistersStick | drivers/bms_ic/bq769x0/bq769x0.c:778-781 | with status word 0 the handler never touches the registers while balancing is not due, whatever they hold |
| BalancingDriver.FailedClearIsNeverRepeated | drivers/bms_ic/bq769x0/bq769x0.c:926-939 | while balancing is not due, each register is decided by the first run alone, write by write: 0 if the status word asked for clearing and that write arrived, else its old value for ever |
| BalancingDriver.Bq769x0.SetBalancingSwitches | drivers/bms_ic/bq769x0/bq769x0.c:835-857 | sections are written in order up to the first refused section or failed write; the word is remembered only if all went through |
| BalancingDriver.Bq769x0.Balance | drivers/bms_ic/bq769x0/bq769x0.c:944-953 | a manual request is refused and changes nothing while automatic balancing is on |
| BalancingDriver.Bq769x0.ConfigureBalancing | drivers/bms_ic/bq769x0/bq769x0.c:403-422 | switching automatic balancing off clears the registers through the manual path; switching it on leaves them |
| BalancingDriver.Bq769x0.ReadBalancing | drivers/bms_ic/bq769x0/bq769x0.c:778-781 | reading replaces the handler's status word with the manual one |
| BalancingDriver.Bq769x0.BalanceSection | drivers/bms_ic/bq769x0/bq769x0.c:879-923 | one section: register and status word get the greedy mask; the status word even when the write fails |
| BalancingDriver.Bq769x0.BalancingWorkHandler | drivers/bms_ic/bq769x0/bq769x0.c:859-942 | registers and status word after a run, for every measurement and every pattern of failing writes, as used by the lemmas above |
| BmsStates.ChgAllowedExactly | app/src/bms_common.c:210-230 | charging is allowed if and only if enabled, not full and none of seven flags is set; the CHG_OFF flag does not block it |
| BmsErrors.FlagBits | include/bms/bms_common.h:30-43 | the fourteen flags are the bits 0 to 13 in the order of the header |
| BmsStates.DisAllowedExactly | app/src/bms_common.c:218-236 | discharging is allowed if and only if enabled, not empty and none of eight flags is set; the DIS_OFF flag does not block it |
| BmsStates.SwitchedBits | drivers/bms_ic/bq769x0/bq769x0.c:818-823 | a command moves only the FETs it names; the other six bits of SYS_CTRL2 keep their values |
| BmsStates.SwitchPositions | drivers/bms_ic/bq769x0/bq769x0.c:804-831 | switch 0 and bit 0 of SYS_CTRL2 are the charge FET, switch 1 and bit 1 the discharge FET; the other six bits are kept |
| BmsStates.StepFets | app/src/bms_common.c:120-208 | both FETs after any step with successful transfers, in terms of state, inputs and the FETs before |
| BmsStates.StepAgreesExactly | app/src/bms_common.c:120-208 | the FETs agree with the state after a step if and only if its lost commands are harmless: the FET named was already where it should be, or the new state claims nothing about it |
| BmsStates.AgreementOverRuns | app/src/bms_common.c:120-208 | all through a run OFF and SHUTDOWN have both FETs off, CHG has CHG on, DIS has DIS on, NORMAL both, if and only if that holds at the start and every loss is harmless; runs with successful transfers have no harmful loss |
| BmsStates.KeptOverRuns | app/src/bms_common.c:196-208 | over every run, whatever is lost, the other register bits keep their values and SHUTDOWN is never left |
| BmsStates.CutOffChargeOnce | app/src/bms_common.c:135-196 | after one step without charging the CHG FET is on only for diode current, or when NORMAL also lost discharging in that step |
| BmsStates.CutOffOverRuns | app/src/bms_common.c:120-201 | at the end of every run without a harmful loss: one delivered tick without discharging turns the DIS FET off, two consecutive ones without charging turn the CHG FET off, except for diode current of at least 0.1 A |
| BmsStates.Stabilises | app/src/bms_common.c:122-196 | under a constant allowed pair the matching state is held after n steps if and only if n is at least the distance, which is at most 2 |
| BmsStates.SettledAfterTwo | app/src/bms_common.c:122-196 | from the second step on a constant allowed pair gives NORMAL, CHG, DIS or OFF if and only if it is both, only charging, only discharging or none |
| BmsStates.DiodeWhileCharging | app/src/bms_common.c:147-158 | while only charging is allowed the DIS FET is a latch over the current with thresholds 0.5 A and 0.1 A |
| BmsStates.DiodeWhileDischarging | app/src/bms_common.c:172-183 | the mirrored latch for the CHG FET |
| BmsStates.LostSwitchOffStays | app/src/bms_common.c:122-133 | in state OFF with nothing allowed the FETs stay as they are for ever |
| BmsStates.SwitchDriver.SetSwitches | drivers/bms_ic/bq769x0/bq769x0.c:804-831 | success exactly for known switches and successful transfers; SYS_CTRL2 is the commanded value, or untouched |
| BmsStates.Bms.StateMachine | app/src/bms_common.c:120-201 | state and register after one call refine one step of the run model with the allowed pair of the flags, full, empty and enable fields, whichever commands are lost |
| BmsStates.Bms.PowerOff | app/src/bms_common.c:203-208 | a shutdown refines the power-down event |
| Latch.AfterIsHistory | drivers/bms_ic/bq769x0/bq769x0.c:638-658 | a one-bit latch is on if and only if some past event set it and none since cleared it, or it started on and was never cleared |
| ProtectionFlags.FlagsExactly | drivers/bms_ic/bq769x0/bq769x0.c:628-658 | every flag of the word means exactly its own condition, and no other flag is raised |
| ProtectionFlags.TemperatureFlags | drivers/bms_ic/bq769x0/bq769x0.c:638-658 | each of the four flags after a poll by its own field: past the limit, moved by the hysteresis exactly if the same flag was set before |
| ProtectionFlags.FlagIsLatch | drivers/bms_ic/bq769x0/bq769x0.c:638-658 | from any starting flags each temperature flag is a latch over the samples, for hysteresis of at least 0 |
| ProtectionFlags.FlagIsHistory | drivers/bms_ic/bq769x0/bq769x0.c:638-658 | after any samples with failed reads among them the flag is set if and only if some sample crossed the limit and none since has returned past limit and hysteresis |
| ProtectionFlags.NegativeHysteresisFails | drivers/bms_ic/bq769x0/bq769x0.c:638-658 | for every negative hysteresis and every temperature flag there is a run that breaks the summary |
| ProtectionFlags.Protection.ReadErrorFlags | drivers/bms_ic/bq769x0/bq769x0.c:616-661 | the method computes one poll of the run model; a failed read leaves the flags |
| AlertHandler.CounterIsStreak | drivers/bms_ic/bq769x0/bq769x0.c:687-746 | the counter is the length of the unbroken series of error runs before this one |
| AlertHandler.ScheduleExactly | drivers/bms_ic/bq769x0/bq769x0.c:686-739 | with age error runs right before: XREADY is cleared exactly if it shows and age is a multiple of 3, OVRD_ALERT of 10, SCD and OCD of 60, UV and OV if the lowest or highest cell has recovered, CC_READY always; nothing older matters |
| AlertHandler.WritesInOrder | drivers/bms_ic/bq769x0/bq769x0.c:680-733 | clearing writes follow the order CC_READY, XREADY, OVRD_ALERT, UV, OV, SCD, OCD |
| AlertHandler.Handler.Handle | drivers/bms_ic/bq769x0/bq769x0.c:663-747 | one run writes back the scheduled faults, in the order of the tests and each once, moves the counter and asks for another run exactly while an error shows |
| AlertHandler.Handler.RetryFaults | drivers/bms_ic/bq769x0/bq769x0.c:694-733 | the chain of tests picks exactly the due faults among those that show, in its order |
| Soc.TracksOverRuns | app/src/bms_soc.c:33-50 | over every run, resets included, reported and pending charge stay within 0.1 % and the reported value within 0.2 % of the exact integrator clamped at every sample, and in 0..100 |
| Soc.MovesExactly | app/src/bms_soc.c:39-47 | the reported value moves exactly when the pending charge leaves -0.1 to 0.1 percent; then nothing stays pending and the sum is kept or cut to the scale |
| Soc.BoundIsTight | app/src/bms_soc.c:42-47 | the bound of 0.2 % is met on both sides by runs of two samples |
| Soc.ChargeIsConserved | app/src/bms_soc.c:39-47 | without saturation, reported plus pending charge is the start plus the sum of all samples, exactly |
| Soc.ResetStaysInScale | app/src/bms_soc.c:11-31 | whatever percentage and voltages a reset is given, the value it sets is in 0..100 if the curve is |
| Soc.ResetExactly | app/src/bms_soc.c:11-31 | a reset to the percentage, to the curve's percentage at each of its voltages, or to the straight line between discharge limit at 0 and charge limit at 100 |
| Soc.Estimator.SetPercent | app/src/bms_soc.c:11-31 | a reset replaces the reported value and keeps the pending charge |
| Soc.Estimator.Update | app/src/bms_soc.c:33-50 | one sample of 100 * A * ms / (Ah * 3 600 000) percent: an hour at the nominal current moves 100 percent; and the pending charge in mAs in the same scale |
| Interpolation.InterpolateLoop | lib/helper.c:9-37 | for every non-empty table, sorted or not, the loop with its early returns never divides by zero and computes the specified value |
| Interpolation.ValueExactly | lib/helper.c:9-37 | for any table, sorted or not: first value, last value, or the point on the straight line between the entry before and the first entry the input is not past |
| Interpolation.ValueAtEntry | lib/helper.c:9-37 | at each entry of a strictly monotone first column the result is that of the second |
| Interpolation.StaysInRange | lib/helper.c:9-37 | for every table the result stays between any bounds of the second column |
| Interpolation.InterpolateMonotone | lib/helper.c:9-37 | if the second column is monotone the result is monotone in the input, whatever the first column |
| Interpolation.InterpolateInverts | lib/helper.c:9-37 | looking up forth and back gives the input clamped to the table, for strictly monotone columns of any length in all four combinations of direction |
| Interpolation.InterpolateSteep | lib/helper.c:9-37 | inside the table the result moves at most as fast as the steepest segment |
| Isl94202Temperature.MaskKeepsCode | drivers/bms_ic/isl94202/isl94202.c:134-137 | no temperature has a code that the 12-bit mask alters |
| Isl94202Temperature.TableEntries | drivers/bms_ic/isl94202/isl94202.c:34-36 | the five temperatures and voltages of the datasheet correspond in both directions |
| Isl94202Temperature.CodesAtEntries | drivers/bms_ic/isl94202/isl94202.c:134-137 | the codes at the five entries, 4095 counts standing for 0.9 V |
| Isl94202Temperature.CodeFalls | drivers/bms_ic/isl94202/isl94202.c:129-176 | warmer limits have lower or equal codes |
| Isl94202Temperature.RecoveryIsInside | drivers/bms_ic/isl94202/isl94202.c:129-176 | for hysteresis of at least 0 each over-temperature recovery code is not below its trip code and each under-temperature one not above |
| Isl94202Temperature.ExactRoundTrip | drivers/bms_ic/isl94202/isl94202.c:34-36 | before truncation, temperature to counts and back is the temperature clamped to the table |
| Isl94202Temperature.CodeRoundTrip | drivers/bms_ic/isl94202/isl94202.c:129-337 | a limit in the table, written as a truncated code and read as a measurement, comes back at most 0.2 degrees warmer and never colder |
| Isl94202Temperature.WrittenAt | drivers/bms_ic/isl94202/isl94202.c:129-176 | after any pattern of failing writes each of the eight registers holds its own code or its old value, and nothing else changes |
| Isl94202Temperature.RegistersExactly | drivers/bms_ic/isl94202/isl94202.c:129-176 | by address: 0x30 charge over-temperature trip, 0x32 its recovery, and so on to 0x3E, each the code of its own limit and hysteresis or its old word; no other byte changes |
| Isl94202Temperature.RecoveryRegisters | drivers/bms_ic/isl94202/isl94202.c:129-176 | after a successful configuration with hysteresis of at least 0 every recovery register lies on the safe side of its trip register |
| Isl94202Temperature.ConfigureTempLimits | drivers/bms_ic/isl94202/isl94202.c:129-179 | the method writes these registers; success says nothing about the last write |
| Isl94202Temperature.ReadTemperatures | drivers/bms_ic/isl94202/isl94202.c:308-338 | chip, cell and MOSFET temperature from the low 12 bits of their registers, with any of the reads failing: then the sensor repeats the reading of the one before it |
| Isl94202Temperature.ChipDegCExactly | drivers/bms_ic/isl94202/isl94202.c:312-315 | 1.8527 mV per kelvin and 4095 counts for 1.8 V |
| Isl94202Interface.Chip.WriteBytes | drivers/bms_ic/isl94202/isl94202_interface.c:19-32 | reserved addresses are refused; otherwise exactly the given bytes change |
| Bytes.WordBytesExactly | drivers/bms_ic/isl94202/isl94202_interface.c:42-47 | the two bytes of a word are those with the lower one first |
| Isl94202Interface.Chip.WriteDelay | drivers/bms_ic/isl94202/isl94202_interface.c:49-75 | the encoded word is written, or an unknown unit or too long delay leaves the memory alone |
| Isl94202Interface.DelayFields | drivers/bms_ic/isl94202/isl94202_interface.c:49-75 | exactly which requests are refused; one below 1024 keeps value and unit, a longer one moves to the next unit by 1000 or 60, the three fields adding up to the word |
| Isl94202Interface.DelayRoundTrip | drivers/bms_ic/isl94202/isl94202_interface.c:49-75 | the fields the chip decodes give the extra bits back and the requested time rounded down by less than one unit, for all accepted requests but seconds above 61439 |
| Isl94202Interface.LongSecondsOverflow | drivers/bms_ic/isl94202/isl94202_interface.c:60-68 | for all seconds above 61439 the decoded delay is below 69 minutes |
| Isl94202Interface.CurrentLimitSettles | drivers/bms_ic/isl94202/isl94202_interface.c:77-108 | asking for the applied limit again selects the same entry, and it exceeds the request exactly when that is below the table |
| Isl94202Interface.Chip.WriteCurrentLimit | drivers/bms_ic/isl94202/isl94202_interface.c:77-108 | the entry found, the word written and the limit written back; on failure limit and memory are unchanged |
| Isl94202Switches.ShadowIsLastCommand | drivers/bms_ic/isl94202/isl94202.c:489-522 | over every run, even with failing transfers, the shadow shows the last accepted command per FET despite the swapped bit positions |
| Isl94202Switches.CommandRegister | drivers/bms_ic/isl94202/isl94202.c:489-522 | switch 0 moves bit 1 of CTRL1 and switch 1 bit 0; the other bits are written as read |
| Isl94202Switches.CommandShadow | drivers/bms_ic/isl94202/isl94202.c:489-522 | the shadow moves at the positions of the switches even when the write fails |
| Isl94202Switches.CommandKeepsOtherBits | drivers/bms_ic/isl94202/isl94202.c:489-522 | commands with a successful read change only the FET bits of CTRL1 |
| Isl94202Switches.FlagExactly | drivers/bms_ic/isl94202/isl94202.c:396-420 | each of the twelve status flags follows its own bit |
| Isl94202Switches.Status0Bits | drivers/bms_ic/isl94202/isl94202.c:396-420 | the six flags of STAT0 by bit |
| Isl94202Switches.Status1Bits | drivers/bms_ic/isl94202/isl94202.c:396-420 | the six flags of STAT1 by bit |
| Isl94202Switches.OffBits | drivers/bms_ic/isl94202/isl94202.c:422-428 | DIS_OFF and CHG_OFF compare bits 0 and 1 of CTRL1 with bits 1 and 0 of the shadow |
| Isl94202Switches.RegisterBit | drivers/bms_ic/isl94202/isl94202.c:489-522 | over every run with successful transfers a FET bit is on if and only if it was last commanded on and not dropped since |
| Isl94202Switches.OffFlagExactly | drivers/bms_ic/isl94202/isl94202.c:422-428 | CHG_OFF or DIS_OFF is raised if and only if the FET was last commanded on and the chip dropped it since |
| Isl94202Switches.Driver.SetSwitches | drivers/bms_ic/isl94202/isl94202.c:489-522 | register and shadow after a command; a failed read writes stale bits, a failed write still moves the shadow |
| Thresholds.SearchDown | drivers/bms_ic/bq769x2/bq769x2.c:343-348 | the downward loop finds the last entry not above the request, or entry 0 |
| Thresholds.SameEntry | drivers/bms_ic/isl94202/isl94202_interface.c:94-100 | in an increasing table every entry selects itself |
| Bq769x0Trips.OvTripExactly | drivers/bms_ic/bq769x0/bq769x0.c:224-227 | the decoded over-voltage trip is at most the requested code and less than 16 steps below, if and only if that lies in 0x2000..0x2FFF |
| Bq769x0Trips.UvTripExactly | drivers/bms_ic/bq769x0/bq769x0.c:266-271 | the decoded under-voltage trip is above the requested code by at most 16 steps, if and only if that lies in 0x0FF0..0x1FEF |
| Bq769x0Trips.OvTripVoltage | drivers/bms_ic/bq769x0/bq769x0.c:212-252 | in volts, for every calibration: the cell is cut off at or below the limit, less than 16 steps early |
| Bq769x0Trips.UvTripVoltage | drivers/bms_ic/bq769x0/bq769x0.c:254-295 | in volts: the cell is cut off above the limit, at most 16 steps early |
| Bq769x0Trips.WholeMvExactly | drivers/bms_ic/bq769x0/bq769x0.c:224 | volts to whole mV, the fraction dropped towards zero |
| Bq769x0Trips.QuotientExactly | drivers/bms_ic/bq769x0/bq769x0.c:224-226 | the division drops the fraction towards zero for either sign |
| Bq769x0Trips.TripsInVolts | drivers/bms_ic/bq769x0/bq769x0.c:212-295 | from the limit in V to the trip in mV: over-voltage at or below the limit and less than 16 steps and 1 mV early, under-voltage at most 16 steps early and at most 1 mV late |
| Bq769x0Trips.DelaysExactly | drivers/bms_ic/bq769x0/bq769x0.c:233-239 | the delay field for every request: 1, 2, 4, 8 over voltage and 1, 4, 8, 16 under voltage |
| Bq769x0Trips.WrittenBackIsTrip | drivers/bms_ic/bq769x0/bq769x0.c:246-249 | for calibrations of the chip the limit written back is the voltage of the trip in mV, its fraction dropped |
| Bq769x0Trips.Protection.ConfigureCellOvp | drivers/bms_ic/bq769x0/bq769x0.c:212-252 | trip and delay registers and the values written back, after every pattern of failing transfers |
| Bq769x0Trips.Protection.ConfigureCellUvp | drivers/bms_ic/bq769x0/bq769x0.c:254-295 | the same for under-voltage |
| Bq769x0Trips.Protection.ConfigureVoltageLimits | drivers/bms_ic/bq769x0/bq769x0.c:433-442 | both in a row, the second also after a failure: each keeps the delay field of the other in the shared register, whatever fails |
| Crc8.CrcDetects | drivers/bms_ic/bq769x2/bq769x2.c:84-98 | for every prefix the CRC is injective in the last byte |
| Crc8.OneByteChangesCrc | drivers/bms_ic/bq769x2/bq769x2.c:43-57 | changing any one byte of a message, wherever it stands, changes its CRC |
| Crc8.ShiftManyInjective | drivers/bms_ic/bq769x2/bq769x2.c:84-98 | shifting zero bits into the CRC register loses nothing |
| Crc8Polynomial.CrcIsRemainder | drivers/bms_ic/bq769x2/bq769x2.c:84-106 | a byte is the CRC of a message if and only if message times x^8 and that byte differ by a carry-less multiple of x^8 + x^2 + x + 1: the remainder of the division |
| Crc8Polynomial.MultiplesAreLong | drivers/bms_ic/bq769x2/bq769x2.c:84-106 | no multiple of the generator but 0 fits eight bits, so that remainder is unique |
| Framing.ValidFrameExactly | drivers/bms_ic/bq769x2/bq769x2.c:84-106 | a frame is accepted if and only if it is the frame of the payload that is read out of it |
| Framing.FrameRoundTrip | drivers/bms_ic/bq769x2/bq769x2.c:30-119 | every framed payload is accepted and read back unchanged |
| Framing.CrcCoverage | drivers/bms_ic/bq769x2/bq769x2.c:43-106 | which bytes each CRC of a write, of a read and of a bq769x0 read covers |
| Framing.OneChangedByteIsDetected | drivers/bms_ic/bq769x2/bq769x2.c:84-106 | changing either byte of some data and CRC pair makes the frame fail, whatever happens to the other pairs |
| Framing.OneAlteredByteIsRefused | drivers/bms_ic/bq769x2/bq769x2.c:30-61 | altering any one byte of a framed write, register byte included, makes its frame invalid |
| Framing.FillWriteBuffer | drivers/bms_ic/bq769x2/bq769x2.c:43-57 | data and CRC bytes are interleaved into a frame, in place and without overrun |
| Framing.WriteBytesI2c | drivers/bms_ic/bq769x2/bq769x2.c:30-61 | one to four bytes go out as register and frame; any other number is refused |
| Framing.ReadBytesI2c | drivers/bms_ic/bq769x2/bq769x2.c:63-119 | success if and only if the length is allowed, the bus works and every CRC matches; then the payload and nothing behind it is filled in |
| Framing.ReadBytesRetry | drivers/bms_ic/bq769x0/bq769x0.c:126-169 | with CRC the first of up to ten answers that is a bus error or a good frame decides, and bad frames only give up after the tenth; without CRC the first answer decides |
| Bq769x2Emulator.Emulator.WriteBytes | drivers/bms_ic/bq769x2/bq769x2_emul.c:91-144 | direct and data memory after a write of any bytes to any register: stored bytes, selection, execution, refusal |
| Bq769x2Emulator.Emulator.Select | drivers/bms_ic/bq769x2/bq769x2_emul.c:117-141 | selecting an address fetches four bytes with checksum and length and touches no data memory |
| Bq769x2Emulator.Emulator.Execute | drivers/bms_ic/bq769x2/bq769x2_emul.c:102-116 | writing the length stores exactly the announced bytes at the selected address |
| Bq769x2Emulator.SelectingFetches | drivers/bms_ic/bq769x2/bq769x2_emul.c:117-141 | writing an address to 0x3E puts its four bytes at 0x40, 8 at 0x61 and at 0x60 the byte that brings the sum to 255 |
| Bq769x2Emulator.ModeCommands | drivers/bms_ic/bq769x2/bq769x2_emul.c:75-89 | 0x0090 and 0x0092 set and clear the mode bit of register 0x12 and touch no data |
| Bq769x2Emulator.ChecksumCloses | drivers/bms_ic/bq769x2/bq769x2_interface.c:119-128 | address bytes, plain sum of the data and checksum are 255 modulo 256 |
| Bq769x2Interface.SessionParts | drivers/bms_ic/bq769x2/bq769x2_interface.c:80-140 | the polls decide nothing but when the rest starts: the outcome is that of length, data and checksum answers |
| Bq769x2Interface.SumDetects | drivers/bms_ic/bq769x2/bq769x2_interface.c:121-137 | changing one byte changes the 8-bit sum |
| Bq769x2Interface.OneAlteredByteFails | drivers/bms_ic/bq769x2/bq769x2_interface.c:80-140 | altering any one data or checksum byte of a successful session makes it fail |
| Bq769x2Interface.EncodeRoundTrip | drivers/bms_ic/bq769x2/bq769x2_interface.c:300-392 | for each of the five types a value encoded and decoded is the same value, sign included |
| Bq769x2Interface.DecodeHolds | drivers/bms_ic/bq769x2/bq769x2_interface.c:300-340 | whatever bytes arrive, the decoded value is in the range of its type |
| Bq769x2Interface.LowestByteFirst | drivers/bms_ic/bq769x2/bq769x2_interface.c:163-170 | where each byte of a value of each type lies, by division and remainder, lowest first; all other bytes keep their values |
| Bq769x2Interface.ReadsLowestFirst | drivers/bms_ic/bq769x2/bq769x2_interface.c:300-340 | the value of each type as a weighted sum of the bytes read, with sign |
| Bq769x2Interface.BytesOfWritten | drivers/bms_ic/bq769x2/bq769x2_interface.c:300-392 | a byte read at offset i inside a value just written is byte i of the value counted from the lowest |
| Bq769x2Interface.UntouchedBytesStay | drivers/bms_ic/bq769x2/bq769x2_interface.c:147-196 | a byte no write covers keeps its value over every run |
| Bq769x2Interface.AfterSplits | drivers/bms_ic/bq769x2/bq769x2_interface.c:300-392 | a run can be cut anywhere: memory after it is that of the second part started from the first |
| Bq769x2Interface.LastWriteIsRead | drivers/bms_ic/bq769x2/bq769x2_interface.c:300-392 | after every run a read returns the value last written there, unless a later write overlaps it |
| Bq769x2Interface.Link.ReadBytes | drivers/bms_ic/bq769x2/bq769x2_emul.c:146-158 | one read transfer over the faulty link: what the driver gets to see is recorded, and without faults it is the chip's memory |
| Bq769x2Interface.OneAlteredByteDoesNotSlip | drivers/bms_ic/bq769x2/bq769x2.c:30-61 | with CRC a write with one altered byte is never taken by the chip |
| Bq769x2Interface.Link.WriteBytes | drivers/bms_ic/bq769x2/bq769x2.c:30-61 | the chip gets what arrives, with CRC only as a valid frame; what is reported as an error had no effect, what is reported as success was written as sent unless it slipped, and slips are exactly the altered writes the chip takes |
| Bq769x2Interface.Driver.PollReady | drivers/bms_ic/bq769x2/bq769x2_interface.c:80-102 | at most 100 polls, all but the last busy; success if and only if the last one echoes the address |
| Bq769x2Interface.Driver.ReadLength | drivers/bms_ic/bq769x2/bq769x2_interface.c:104-114 | accepted if and only if the length byte is 4..36, lower ones being rejected by 8-bit wrap-around |
| Bq769x2Interface.Driver.CopyAndSum | drivers/bms_ic/bq769x2/bq769x2_interface.c:121-128 | the sum runs over all received bytes while only those that fit are copied |
| Bq769x2Interface.PayloadStored | drivers/bms_ic/bq769x2/bq769x2_interface.c:162-187 | after a selection the two writes of data and of checksum with length store exactly the data at the selected address |
| Bq769x2Interface.Driver.DataRead | drivers/bms_ic/bq769x2/bq769x2_interface.c:66-145 | over any faulty bus: success if and only if the answers form a good session, and the bytes filled in are those of the session; without a slip data memory is untouched; without faults the chip's bytes are read |
| Bq769x2Interface.Driver.DataWrite | drivers/bms_ic/bq769x2/bq769x2_interface.c:147-196 | over any faulty bus and without a slip: success stores exactly the given bytes, failure leaves all of data memory unchanged |
| Bq769x2Interface.Driver.WriteTyped | drivers/bms_ic/bq769x2/bq769x2_interface.c:342-392 | without a slip a typed write is one write of the byte map, or changes nothing |
| Bq769x2Interface.Driver.ReadTyped | drivers/bms_ic/bq769x2/bq769x2_interface.c:300-340 | without a slip a typed read changes no data memory, and without faults it returns the value of the byte map |
| Bq769x2Interface.Driver.RunAll | drivers/bms_ic/bq769x2/bq769x2_interface.c:300-392 | driver, framing and emulated chip refine the plain byte map: every series of typed reads and writes succeeds with the map's results and final memory |
| Bq769x2Interface.Driver.ConfigUpdateMode | drivers/bms_ic/bq769x2/bq769x2_interface.c:268-298 | at most five status reads; the remembered mode changes only after the chip reported it; without faults the chip is in the mode |
| Bq769x2Config.OverVoltageSettles | drivers/bms_ic/bq769x2/bq769x2.c:166-190 | applying the over-voltage settings written back selects the same registers, for all settings |
| Bq769x2Config.UnderVoltageSettles | drivers/bms_ic/bq769x2/bq769x2.c:192-222 | the same for under-voltage |
| Bq769x2Config.VoltageMovesLittle | drivers/bms_ic/bq769x2/bq769x2.c:173-183 | an unclamped voltage limit moves by at most 25.3 mV |
| Bq769x2Config.RoundExactly | drivers/bms_ic/bq769x2/bq769x2.c:170-173 | rounding goes to within one half, halves away from zero |
| Bq769x2Config.OvCodesExactly | drivers/bms_ic/bq769x2/bq769x2.c:166-181 | limit, distance to reset and delay get the setting they are nearest to, in 50.6 mV and 3.3 ms, within the clamps; beyond the range its end |
| Bq769x2Config.UvCodesExactly | drivers/bms_ic/bq769x2/bq769x2.c:192-207 | the same under voltage, the reset value above the limit |
| Bq769x2Config.VoltageAppliedExactly | drivers/bms_ic/bq769x2/bq769x2.c:183-185 | the values written back, from the registers |
| Bq769x2Config.OverCurrentSettlesExactly | drivers/bms_ic/bq769x2/bq769x2.c:278-334 | over-current write-back is a fixpoint if and only if the requested limit is not negative, or its code cut to eight bits is at most 2 or clamps to no more than the code of the board's highest current |
| Bq769x2Config.OverCurrentSettles | drivers/bms_ic/bq769x2/bq769x2.c:278-334 | that holds for every limit that is not negative, wrapped conversions included |
| Bq769x2Config.SmallNegativeLimitSettles | drivers/bms_ic/bq769x2/bq769x2.c:283-287 | negative limits of less than half a step settle on every board |
| Bq769x2Config.NegativeLimitUnsettled | drivers/bms_ic/bq769x2/bq769x2.c:283-287 | one limit that does not: -2 A on a board of 10 A wraps to code 62 and then drops to 5 |
| Bq769x2Config.OverCurrentExactly | drivers/bms_ic/bq769x2/bq769x2.c:278-334 | limit cut to the board and delay get the setting they are nearest to, in 2 mV at the shunt and 3.3 ms above 6.6 ms, within the clamps; beyond the range its end |
| Bq769x2Config.OverCurrentAppliedExactly | drivers/bms_ic/bq769x2/bq769x2.c:293-294 | the values written back, from the registers |
| Bq769x2Config.ShortCircuitSettles | drivers/bms_ic/bq769x2/bq769x2.c:336-361 | short-circuit write-back is a fixpoint and fits the driver's variables again |
| Bq769x2Config.ShortCircuitExactly | drivers/bms_ic/bq769x2/bq769x2.c:341-351 | the highest threshold the voltage at the shunt does not stay below, and the delay in steps of 15 us |
| Bq769x2Config.ScThresholds | drivers/bms_ic/bq769x2/bq769x2.c:343-348 | the sixteen thresholds as steps of 20, 25 and 50 mV |
| Bq769x2Config.ShortCircuitAppliedExactly | drivers/bms_ic/bq769x2/bq769x2.c:356-358 | the values written back, from the registers |
| Bq769x2Configure.WriteBackIsFixpoint | drivers/bms_ic/bq769x2/bq769x2.c:166-361 | all settings together: applying what was written back selects the same register contents if and only if both over-current limits settle, and then writes back the same settings |
| Bq769x2Configure.AppliedExactly | drivers/bms_ic/bq769x2/bq769x2.c:573-623 | each setting is replaced by what its own registers stand for if its group is selected, else kept |
| Bq769x2Configure.ConfiguredBytes | drivers/bms_ic/bq769x2/bq769x2.c:166-361 | data memory by address after a configuration: every register with its own code, bits 2, 4 and 5 of 0x9261, nothing else |
| Bq769x2Configure.ReconfigureIsIdempotent | drivers/bms_ic/bq769x2/bq769x2.c:573-623 | configuring again with the settings written back leaves all of data memory as it is, enable bits included, if and only if the selected over-current limits settle |
| Bq769x2Configure.VoltagesHeld | drivers/bms_ic/bq769x2/bq769x2.c:166-222 | writing the voltage settings makes memory hold them, and is the identity on memory that already does |
| Bq769x2Configure.CurrentsHeld | drivers/bms_ic/bq769x2/bq769x2.c:278-361 | the same for the current settings, which moreover keep the voltage settings |
| Bq769x2Configure.ProtectedBits | drivers/bms_ic/bq769x2/bq769x2.c:213-219 | setting an enable bit leaves the other seven as they were |
| Bq769x2Configure.EnableProtection | drivers/bms_ic/bq769x2/bq769x2.c:213-219 | read-modify-write of the enable register over the protocol: nothing is written after an earlier failure, success without a slip sets the bit, and without faults the other bits keep their values |
| Bq769x2Configure.ConfigureCellOvp | drivers/bms_ic/bq769x2/bq769x2.c:166-190 | over any faulty bus and without a slip only the over-voltage bytes of data memory can change, and success means that they hold the codes; the write-back happens even when the bus fails |
| Bq769x2Configure.ConfigureCellUvp | drivers/bms_ic/bq769x2/bq769x2.c:192-222 | the same for under-voltage and its enable bit |
| Bq769x2Configure.ConfigureOcp | drivers/bms_ic/bq769x2/bq769x2.c:278-334 | the same for either over-current direction |
| Bq769x2Configure.ConfigureDisScp | drivers/bms_ic/bq769x2/bq769x2.c:336-361 | the same for short-circuit |
| Bq769x2Configure.CurrentsAlike | drivers/bms_ic/bq769x2/bq769x2.c:278-361 | steps over a faulty bus that all report success leave the memory of fault-free ones, but for the enable register |
| Bq769x2Configure.Configure | drivers/bms_ic/bq769x2/bq769x2.c:573-623 | for any selection of the two groups over any faulty bus: without a slip only the bytes of the selected settings can change, and success means that data memory is that of a fault-free configuration except the enable register; without faults it is exactly that; mode is left, the selected settings become the applied ones |

## Left out

- Zephyr plumbing: device tree, I2C and GPIO calls, work queues, sleeps, logging. A transfer succeeds, fails or delivers other bytes; a handler runs or does not.
- LEDs, display, button, ThingSet objects: user interface and glue.
- Rounding of `float`, and the thermistor formula with its logarithm; numeric claims are over reals.
- Crc8.CrcDetects: `crc8_ccitt` is a Zephyr function that is not part of this model; it is taken as the CRC with generator x^8 + x^2 + x + 1 and initial value 0, the polynomial of section 5.4 of the SMBus Specification 2.0, and `CrcIsRemainder` shows that the loop computes it.
- BalancingDriver.CoherentOverRuns: handler-only runs; reading balancing data breaks coherence, which `ReadBalancing` and `RegistersStick` show.
- BalancingDriver.Bq769x0.BalancingWorkHandler: the idle-time test is a boolean parameter, because the source compares milliseconds with a delay documented in seconds; rescheduling is left out.
- BalancingSelection.GreedyIsHalfOptimal: assumes that no candidate lies below vMin, which only a negative threshold can break; `HalfOptimalNeedsThreshold` shows how.
- BmsStates.AgreementOverRuns: the FETs are what the driver commands; a chip that drops a FET by itself is modelled for the ISL94202 in `Isl94202Switches`.
- BmsStates.Bms.StateMachine: the variant with software ideal diode; builds for the bq769x2 leave that branch out.
- AlertHandler.Handler.Handle: the current reading before CC_READY is cleared is left out, and so are the results of the clearing writes, which the source only logs; `cell_uv_reset` and `cell_ov_reset` are arbitrary because `configure` never stores them.
- ProtectionFlags.FlagIsHistory: limits and hysteresis are constant over the run.
- Bq769x0Trips.Protection.ConfigureCellOvp: no fixpoint is claimed, because the limit is written back in mV while the input is in V; delays are compared as the source compares them, tables in seconds with settings in ms; `adc_offset` is any integer.
- Framing.ReadBytesRetry: the bq769x0 write frame and the detection of its CRC option are not modelled.
- Bq769x2Interface.Link.WriteBytes: a corrupted write has the length of the one sent, and where it would make the emulator copy past the end of an array the model leaves memory alone.
- Bq769x2Interface.Driver.DataWrite: says nothing about data memory after a slip; without CRC any corrupted write slips.
- Bq769x2Interface.Driver.DataRead: addresses up to 0x93FC, where the emulated chip can fetch four bytes; beyond that it reads past its memory. When a session announces fewer bytes than asked for, the rest of the caller's buffer keeps its values, as in the source.
- Bq769x2Interface.Driver.RunAll: a float is given by its 32 bits; direct commands and subcommands with data are not modelled as operations.
- Bq769x2Configure.Configure: the voltage and current groups only, and nothing about data memory after a slip; after a failed entry into config update mode the driver fails an assertion at its first write, and what a build without assertions does then is not modelled. Over a faulty bus the enable register is left open, because a garbled answer that passes the checks is written back.
- Bq769x2Configure.ConfigureDisScp: requires that the requested current and delay fit the 16-bit variables they are converted to; out-of-range conversions from `float` are undefined in C.
- Isl94202Interface.Chip.WriteCurrentLimit: the same for its 16-bit millivolt value.
- Isl94202Interface.DelayRoundTrip: not for seconds above 61439, where `LongSecondsOverflow` gives what happens.
- bq769x2, the rest: temperature limits (truncation and clamping can make their re-validation fail), alerts, voltage registers, cell detection, initial configuration, FET control and balancing.
- ISL94202: voltage registers, current reading, cell count, its own balancing handler, mode switching.
- All-or-nothing manual balancing: sections before a refused one are already written, as `SetBalancingSwitches` says.
