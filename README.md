# Warehouse planner core in Dafny

This project models the deterministic core of a multi-robot warehouse planner and proves its properties. The planner allocates replenishment tasks to robots and plans at two resolutions.

- **Coarse world.** A w x h grid shrunk by a `grid_square` factor. The robot moves left, right, up and down. Moves are clamped at the borders and blocked vertically in the rack aisles. The coarse world is used to allocate tasks.
- **Fine world.** The robot has a cell, a facing direction and a carrying flag, and there may be a pack on the floor. Five actions: rotate left, rotate right, forward, pick up, drop. The fine world is used to plan each allocated task.

The modules follow the source files:

| module | file | source |
|---|---|---|
| `Common` | `common.dfy` | Optional values, duplicate-free lists, the dense state index (`insert_state_mapping`), its reverse (`set_reverse_state_mapping`) and reward tables. |
| `Geometry` | `geometry.dfy` | Points, the rotation mapping, `front_pos` and `fwd_cell`. |
| `Layout` | `layout.dfy` | The warehouse context `Info` as a class. Its setup methods `set_racks`, `set_corridors`, `set_lookup_rack` and `set_rotation_mapping` append to its lists in place. Also the default rack layout and the corridor filter. |
| `FineWorld` | `fine_world.dfy` | `warehouse_step`, as a function of the state, the action and the read-only context. |
| `FineRobot` | `fine_robot.dfy` | The fine robot as a class: `warehouse_state_space` fills its state list, index and words; `warehouse_transition_map` fills its transition and reward tables. Both are specified by functions over the registered lists. |
| `Schedule` | `schedule.dfy` | `create_decoded_sched_to_file`: files every policy entry under position, then direction. |
| `CoarseWorld` | `coarse_world.dfy` | The coarse robot: `state_space`, `step` and `transition_map`. |
| `TaskAutomata` | `automata.dfy` | The three task automata `lr_replenishment`, `hr_replenishment` and `regeneration`, their helpers, and their runs over word sequences. |
| `Allocation` | `allocation.dfy` | Three parts of the binary's main loop:<br>• chaining each (agent, task) product to the next agent's and the next task's initial state;<br>• the first-match allocation scan over the Pareto schedulers;<br>• the per-agent task lists built from the chosen schedulers. |

Conventions:
- **Panics.** Where the source panics (an `unwrap` on a missing key, an index out of range, `assert!`, usize underflow, an unknown direction in the rotation map), the model has a precondition stating exactly when the source does not panic.
- **Error paths the source handles.** These are modelled, not excluded: an unknown automaton state returns -1, and an out-of-range action of the fine step changes nothing.
- **Floats.** `f64` values are `real`.
- **Integers.** They are unbounded; the one cast that matters, `pi[sidx] as i32`, is written out with truncation and saturation.
- **Decoder keys.** The string keys of the decoder's nested hash map are the printed forms of the position and the direction. Those printings are one-to-one, so the model keys the map by the values themselves.

## Model

| member | source | states |
|---|---|---|
| Geometry.FrontPos | src/env/warehouse/high_fidelity_warehouse.rs:194-215 | The result is a cell exactly when position plus rotation vector lies inside the w x h grid, and then it is that cell. A direction without a rotation entry is excluded, because the source panics there. |
| Geometry.FwdCell | src/env/warehouse/high_fidelity_warehouse.rs:217-239 | Each of the five cell classes, as an if-and-only-if in priority order: out of bounds, then rack, then a pack on the floor, then a feed point, otherwise free. |
| Geometry.DefaultRotation | src/env/warehouse/high_fidelity_warehouse.rs:179-184 | The installed rotation mapping has exactly the directions 0 to 3 as keys. |
| Geometry.DefaultRotationTurns | src/env/warehouse/high_fidelity_warehouse.rs:179-184 | With the installed mapping, turning right (d+1) mod 4 turns the unit vector a quarter clockwise, and every vector is an axis-aligned unit vector. |
| Geometry.FrontPosReversible | src/env/warehouse/high_fidelity_warehouse.rs:194-215 | The front cell of an in-grid cell is a different cell. Facing the opposite direction from it gives back the starting cell. |
| Layout.Info.Make | src/env/warehouse/high_fidelity_warehouse.rs:107-125 | The context holds the given lists, sizes and mapping, and both task selectors start at 0. |
| Layout.Info.SetRacks | src/env/warehouse/high_fidelity_warehouse.rs:127-148 | Given racks are appended. Otherwise the default layout is appended, column pair by column pair and row by row; it requires at least one column pair, which is the source's assertion. |
| Layout.RackColumnsMembership | src/env/warehouse/high_fidelity_warehouse.rs:138-145 | A cell is a default rack exactly when it lies on an inner row and in column 3c+2 or 3c+3 of an existing column pair c. |
| Layout.RackColumnsCount | src/env/warehouse/high_fidelity_warehouse.rs:138-145 | The default layout has two racks per column pair and inner row. |
| Layout.Info.SetCorridors | src/env/warehouse/high_fidelity_warehouse.rs:150-169 | Given corridors are appended. Otherwise every grid cell that passes the filter as written is appended, in x-major order. |
| Layout.Info.ScanColumn | src/env/warehouse/high_fidelity_warehouse.rs:160-166 | One column of the cartesian product, filtered as written, is appended to the corridors. |
| Layout.GridCellsShape | src/env/warehouse/high_fidelity_warehouse.rs:156-161 | The cartesian product of 0..width and 0..height lists exactly the grid cells, width*height of them, with no duplicates. |
| Layout.CorridorsAsWrittenMembership | src/env/warehouse/high_fidelity_warehouse.rs:160-166 | As written, a cell becomes a corridor exactly when it is not both a rack and a feed point. |
| Layout.RackCellIsCorridorAsWritten | src/env/warehouse/high_fidelity_warehouse.rs:162-164 | In every default layout whose feeds do not include (2, 1), the as-written filter lists the rack (2, 1) as a corridor. |
| Layout.IntendedCorridorsOfGrid | src/env/warehouse/high_fidelity_warehouse.rs:150-169 | With the intended filter, the corridors are exactly the grid cells that are neither racks nor feeds, each listed once. |
| Layout.IntendedCorridorsMembership | src/env/warehouse/high_fidelity_warehouse.rs:162-164 | The intended filter keeps exactly the listed cells that are neither racks nor feeds, and keeps a duplicate-free list duplicate-free. |
| Layout.CorridorsAsWrittenDistinct | src/env/warehouse/high_fidelity_warehouse.rs:160-166 | The as-written corridor list of a duplicate-free cell list has no duplicates. |
| Layout.Info.SetLookupRack | src/env/warehouse/high_fidelity_warehouse.rs:171-173 | The rack selector becomes the given rack. |
| Layout.Info.SetRotationMapping | src/env/warehouse/high_fidelity_warehouse.rs:179-184 | The mapping becomes the old mapping overridden by right, down, left and up for 0 to 3; other entries are kept. |
| FineWorld.RotationsInverse | src/env/warehouse/high_fidelity_warehouse.rs:375-391 | Both rotations keep a direction within 0 to 3 and undo each other. |
| FineWorld.WordOf | src/env/warehouse/high_fidelity_warehouse.rs:461-466 | The word copies position, direction and carrying flag. It carries the pack position exactly when a pack lies on the floor. |
| FineWorld.NextState | src/env/warehouse/high_fidelity_warehouse.rs:356-460 | The effect of each action:<br>• rotations change only the direction, and nothing else does;<br>• the position changes only by a forward move onto a free cell;<br>• pickup and drop change the state exactly when effective, with the pack fields set per facing cell;<br>• an unknown action changes nothing. |
| FineWorld.Step | src/env/warehouse/high_fidelity_warehouse.rs:356-468 | Exactly one successor, with probability 1.0, the next state and a word describing it. |
| FineWorld.StepPreservesConsistency | src/env/warehouse/high_fidelity_warehouse.rs:356-468 | Every action keeps a consistent state consistent:<br>• 0/1 flags;<br>• the no-pack sentinel (-1, -1);<br>• no floor pack while carrying;<br>• no floor pack under the agent. |
| FineWorld.PickupThenDropRestoresPack | src/env/warehouse/high_fidelity_warehouse.rs:402-449 | Picking a floor pack up and dropping it again, when the cell is not a feed point, restores the state. |
| FineRobot.StateSpaceProperties | src/env/warehouse/high_fidelity_warehouse.rs:274-354 | The enumeration holds exactly the states of the generated shape, and every one of them is consistent. For a duplicate-free corridor list it has no duplicates and 4c(c+1) states. |
| FineRobot.EnumerateFromMembers | src/env/warehouse/high_fidelity_warehouse.rs:279-350 | The states enumerated for a list of agent cells are exactly those with the agent on a listed cell and the generated shape. |
| FineRobot.EnumerateFromCount | src/env/warehouse/high_fidelity_warehouse.rs:279-350 | The enumeration for duplicate-free lists has no duplicates and 4(c+1) states per agent cell. |
| FineRobot.CorridorListsCoverFreeCells | src/env/warehouse/high_fidelity_warehouse.rs:150-169 | Both the as-written and the intended default corridor lists contain every free in-grid cell. |
| FineRobot.StepClosed | src/env/warehouse/high_fidelity_warehouse.rs:356-468 | Over a corridor list covering the free cells, the successor of every generated state under every action is a generated state. |
| FineRobot.GeneratedSpaceLookups | src/env/warehouse/high_fidelity_warehouse.rs:470-487 | Over a corridor list covering the free cells, every state of the generated space and each of its successors is indexed, so neither lookup that warehouse_transition_map unwraps can fail. |
| FineRobot.Robot.Make | src/env/warehouse/high_fidelity_warehouse.rs:242-254 | A new robot has na actions, the given initial state and empty tables. |
| FineRobot.Robot.WarehouseStateSpace | src/env/warehouse/high_fidelity_warehouse.rs:274-354 | The state list and words grow by the enumeration. The index gains the enumeration with indices counted from 0, because the counter restarts at 0, overriding earlier entries for the same state. The reverse map inverts the index. |
| FineRobot.Robot.RegisterCell | src/env/warehouse/high_fidelity_warehouse.rs:279-351 | One agent cell's states, for all four directions, are registered under consecutive indices. |
| FineRobot.Robot.RegisterAgentDir | src/env/warehouse/high_fidelity_warehouse.rs:280-350 | One (cell, direction) pass registers the floor-pack states, then the empty state, then the carrying state. |
| FineRobot.Robot.RegisterPackStates | src/env/warehouse/high_fidelity_warehouse.rs:292-311 | Every other corridor cell is registered as the pack's position, in list order. |
| FineRobot.Robot.WarehouseTransitionMap | src/env/warehouse/high_fidelity_warehouse.rs:470-487 | The tables become the step table and the reward table over every registered state and action. |
| FineRobot.Robot.FillRow | src/env/warehouse/high_fidelity_warehouse.rs:473-485 | One state's row holds, for every action, the index, probability and word of its successor, and reward r. |
| FineRobot.TableAfterLookup | src/env/warehouse/high_fidelity_warehouse.rs:470-487 | In the filled table, key (index of the i-th state, a) holds exactly that state's successor list for action a. |
| Common.IndexingDense | src/env/warehouse/high_fidelity_warehouse.rs:299-301 | Registering states in turn indexes exactly the listed states. Each index points at a position holding the state, and without duplicates the i-th state gets index i. |
| Common.IndexRoundTrip | src/env/warehouse/high_fidelity_warehouse.rs:353 | For a duplicate-free list, the index is one-to-one onto 0..n-1, and the reverse map undoes it in both directions. |
| Schedule.CastToI32 | src/env/warehouse/high_fidelity_warehouse.rs:519 | `as i32` truncates toward zero and saturates at the bounds of i32. |
| Schedule.RecordAt | src/env/warehouse/high_fidelity_warehouse.rs:505-521 | A record holds the robot state found through both reverse maps, the cast action and the automaton state. |
| Schedule.DecodeSchedule | src/env/warehouse/high_fidelity_warehouse.rs:489-558 | The result files the records of all policy entries in order: a new position, a new direction or an append. Every reverse lookup must succeed. |
| Schedule.DecodedBuckets | src/env/warehouse/high_fidelity_warehouse.rs:505-556 | A (position, direction) list exists exactly when some record has that position and direction. It is then those records, in policy order. |
| Schedule.DecodedPositions | src/env/warehouse/high_fidelity_warehouse.rs:508-524 | A position has an entry exactly when some record is at it, and the entry is never empty. |
| Schedule.BucketMembers | src/env/warehouse/high_fidelity_warehouse.rs:525-555 | A record is in the (p, d) list exactly when it is one of the records with position p and direction d. |
| Schedule.BucketsSumToRecords | src/env/warehouse/high_fidelity_warehouse.rs:504-556 | Every record is filed exactly once: over any duplicate-free list of (position, direction) keys covering the records, the list sizes add up to the number of records, which is one per policy entry. |
| CoarseWorld.CeilDiv | src/env/warehouse/low_fidelity_warehouse.rs:71-72 | The result is the ceiling of n/g: (r-1)g < n <= rg. |
| CoarseWorld.CellsShape | src/env/warehouse/low_fidelity_warehouse.rs:73-79 | state_space lists exactly the cells of the wn x hn grid, wn*hn of them, each once. |
| CoarseWorld.GridCellsAt | src/env/warehouse/low_fidelity_warehouse.rs:73 | The x-major product puts cell (x, y) at position x*hn + y. |
| CoarseWorld.CellIndex | src/env/warehouse/low_fidelity_warehouse.rs:73-80 | Cell (x, y) gets index x*hn + y, and the reverse map sends that index back to the cell. |
| CoarseWorld.CellsInverseDomain | src/env/warehouse/low_fidelity_warehouse.rs:80 | The reverse map is defined on exactly the indices 0..wn*hn-1. |
| CoarseWorld.CoarseRobot.Make | src/env/warehouse/low_fidelity_warehouse.rs:48-58 | A new robot has na actions, the given initial cell and empty tables. |
| CoarseWorld.CoarseRobot.StateSpace | src/env/warehouse/low_fidelity_warehouse.rs:70-82 | The result is (ceil(w/g), ceil(h/g)). The cells of that grid are registered in x-major order under consecutive indices with their words, and the reverse map inverts the index. |
| CoarseWorld.CoarseRobot.RegisterColumn | src/env/warehouse/low_fidelity_warehouse.rs:73-79 | One column of the product is registered under consecutive indices. |
| CoarseWorld.LexMin | src/env/warehouse/low_fidelity_warehouse.rs:87 | The least rack in tuple order, and it is one of the racks. |
| CoarseWorld.LexMax | src/env/warehouse/low_fidelity_warehouse.rs:88 | The greatest rack in tuple order, and it is one of the racks. |
| CoarseWorld.CoarseNext | src/env/warehouse/low_fidelity_warehouse.rs:84-130 | Each move changes one coordinate by one, along its own axis:<br>• left moves iff x > 0;<br>• right moves iff x < w-1;<br>• up and down move iff the cell is outside the aisle rule and not at the border.<br>An in-grid cell stays in the grid. |
| CoarseWorld.Successors | src/env/warehouse/low_fidelity_warehouse.rs:131-134 | Exactly one successor: the index of the next cell, probability 1.0, and the next cell as the word. |
| CoarseWorld.LeftRightInverse | src/env/warehouse/low_fidelity_warehouse.rs:91-104 | Left then right, and right then left, return to the start away from the borders. |
| CoarseWorld.UpDownInverse | src/env/warehouse/low_fidelity_warehouse.rs:105-128 | Up then down, and down then up, return to the start when neither cell is in an aisle. |
| CoarseWorld.AisleHoldsVertical | src/env/warehouse/low_fidelity_warehouse.rs:107-128 | In an aisle both vertical moves are no-ops. |
| CoarseWorld.TableAfterLookup | src/env/warehouse/low_fidelity_warehouse.rs:137-153 | In the filled table, key (index of the i-th state, a) holds exactly the step's successor list for that state and a. |
| CoarseWorld.GeneratedSpaceLookups | src/env/warehouse/low_fidelity_warehouse.rs:137-153 | On the grid generated with factor 1, every lookup of transition_map succeeds for all four actions. |
| CoarseWorld.CoarseRobot.TransitionMap | src/env/warehouse/low_fidelity_warehouse.rs:137-153 | The tables become the step table and the reward table over every registered state and action. |
| CoarseWorld.CoarseRobot.FillRow | src/env/warehouse/low_fidelity_warehouse.rs:141-150 | One state's row holds, for every action, its successor list and reward r. |
| TaskAutomata.LrReplenishmentAsWritten | src/bin/rusty-warehouse.rs:520-558 | The coarse replenishment automaton as written:<br>• 0→1 iff the agent is NOT on the selected rack (it stays in 0 on the rack);<br>• 1→2 iff on the selected feed point; 2→3 iff on the rack;<br>• 3 and 4 go to 4;<br>• otherwise the state stays;<br>• an unknown state gives -1. |
| TaskAutomata.LrRunAsWrittenAfterStart | src/bin/rusty-warehouse.rs:549-553 | Away from state 0, as-written runs and intended runs agree. |
| TaskAutomata.LrRunAsWrittenCounts | src/bin/rusty-warehouse.rs:546-558 | From the start, an as-written run stays in 0 while the agent stands on the rack. After the first word off the rack, it counts from 1 the in-order visits of the feed point and then the rack. |
| TaskAutomata.LrAsWrittenSkipsRack | src/bin/rusty-warehouse.rs:548 | With rack (2, 1) and feed point (0, 1): the visits rack, feed point, rack finish the intended automaton but leave the as-written one in 1. A run that reaches the rack only at its end finishes the as-written one. |
| TaskAutomata.LrReplenishment | src/bin/rusty-warehouse.rs:546-558 | The intended coarse replenishment automaton, with state 0 corrected (see Findings):<br>• 0→1 iff the agent is on the selected rack; 1→2 iff on the selected feed point; 2→3 iff on the rack;<br>• 3 and 4 go to 4;<br>• otherwise the state stays;<br>• an unknown state gives -1. |
| TaskAutomata.LrRunCountsVisits | src/bin/rusty-warehouse.rs:546-558 | Of the intended automaton: up to state 3, a run counts the in-order visits of rack, feed point and rack. |
| TaskAutomata.LrRunFinishes | src/bin/rusty-warehouse.rs:546-558 | Of the intended automaton: a run from 0 reaches state 3 or more exactly when the three targets are visited in order, which takes at least three words. |
| TaskAutomata.LrRunStaysDone | src/bin/rusty-warehouse.rs:542-556 | The done state 4 is absorbing. |
| TaskAutomata.HrReplenishment | src/bin/rusty-warehouse.rs:562-672 | The fine replenishment automaton never goes back within 0..7 and gives -1 for an unknown state. It enters the fail sink 7 exactly when it carries in state 0 or does not carry in states 2 and 3. States 0 to 4 otherwise stay or advance by one, and each advance holds iff the front cell is the rack or feed point, or the carrying flag changes; so each stays exactly when it neither fails nor advances. 5 and 6 go to 6, and 7 stays 7. |
| TaskAutomata.HrRunMonotone | src/bin/rusty-warehouse.rs:655-672 | A run from a known state ends in a state no lower, within 0..7. |
| TaskAutomata.HrRunAbsorbing | src/bin/rusty-warehouse.rs:651-672 | The done state 6 and the fail sink 7 are absorbing for whole runs. |
| TaskAutomata.HrDropOnTheWayFails | src/bin/rusty-warehouse.rs:594-617 | Not carrying in state 2 sends the run to the fail sink for good. |
| TaskAutomata.Regeneration | src/bin/rusty-warehouse.rs:674-700 | 0→1 iff the agent is on the queue point, and otherwise 0 stays 0 (no step advances by more than one); 1 and 2 go to 2; an unknown state gives -1. |
| TaskAutomata.RegenRunVisits | src/bin/rusty-warehouse.rs:674-700 | A run from 0 reaches 1 or more iff some word is on the queue point. It reaches 2 iff such a word is followed by another word. |
| TaskAutomata.RegenAfterVisit | src/bin/rusty-warehouse.rs:682-700 | From 1 a run is done after one more word, and 2 is absorbing. |
| Allocation.NextAgentIdx | src/bin/rusty-warehouse.rs:169-173 | The recorded initial index of the next agent on the same task; for the last agent, the product's own initial index. |
| Allocation.NextTaskIdx | src/bin/rusty-warehouse.rs:175-179 | The recorded initial index of agent 0 on the next task; for the last task, the product's own initial index. |
| Allocation.ChainingIndices | src/bin/rusty-warehouse.rs:126-179 | Once every initial index is recorded, both switches of every product lead to the initial index of the product they name. |
| Allocation.ChainReachesEveryPair | src/bin/rusty-warehouse.rs:168-179 | Every product (a, t) is reached from (0, 0) along a path of switches. |
| Allocation.Winner | src/bin/rusty-warehouse.rs:207-227 | The first agent whose scheduler k chooses task t, if any agent does. |
| Allocation.ScanAgent | src/bin/rusty-warehouse.rs:209-226 | After agent a, each scheduler's flag and allocation entry record the first chooser among agents 0..a; other tasks' entries are unchanged. |
| Allocation.AllocateTask | src/bin/rusty-warehouse.rs:205-229 | For one task, with the flags reset to 0, (t, k) is allocated exactly when some agent chooses it, and then to the first such agent. |
| Allocation.AllocateTasks | src/bin/rusty-warehouse.rs:205-229 | Keys stay in range. (t, k) is allocated iff some agent's scheduler k chooses task t at its initial state, and then to the first such agent, so each k goes to at most one agent per task. |
| Allocation.AssignTasks | src/bin/rusty-warehouse.rs:262-287 | Agent a's list holds every task index whose chosen scheduler allocates them to a, in task order. |
| Allocation.TasksOfPartition | src/bin/rusty-warehouse.rs:262-287 | The lists partition all task indices: t is in a's list iff its chosen scheduler allocates it to a, and every list is strictly increasing. |

## Left out

- **Product and solvers.** Not modelled: the product construction, `set_available_actions`, `mdp_rewards_fn`, the sparse matrices, value iteration, the multi-objective solver, `runner_policy_value` (costs and completion probabilities) and `gurobi_task_witness`. They are calls into an external crate whose source is not part of this model.
- **I/O and concurrency.** Not modelled: thread pools, progress bars, `println!`, file and JSON output of the schedules, `SCPM_HOME`, and `construct_agent_scheduler_hdd` (disk I/O).
- **Randomness.** Task positions, feed choices and `choose_weighted` are random draws. `AssignTasks` takes the drawn scheduler of each task as the `choice` parameter.
- **Outside the core.** Not modelled: `src/env/gym_env.rs` and the trait-default `state_space`, `step` and `transition_map` of the fine robot, which do nothing. `State::default` (high_fidelity_warehouse.rs:49-59) is not modelled either: no modelled operation reads it, since the state space builds every state explicitly and the initial state is an input.
- Allocation.AssignTasks: `agent_start_pos`, the initial fine state and the setting of `lookup_rack` and `feed_option` per task are not modelled; only the per-agent task lists are.
- **Initial states.** Not modelled: `get_init_state` of the combined model and the initial index of each product. Both are inputs (`initState`, `initialStates`).
- TaskAutomata.LrReplenishment: the source unwraps `data.info`. It is always present in the binary, so the model takes the context directly.
- TaskAutomata.HrReplenishment: `goto_rand_rackpos`, `carry_rack_to_feed0` and `carry_rack_back_to_pos` unwrap `data.info` too; the model takes the context directly for the same reason.
- TaskAutomata.Regeneration: `queue_point` is read from a context field that the shown `Info` struct does not declare, so the model takes it as a parameter.
- CoarseWorld.CoarseRobot.StateSpace:
  - the source computes the ceiling with `f64` division, which is exact for `i32` operands, so the model uses integer ceiling division;
  - a `grid_square` of 0 is excluded by a precondition (the float division would be infinite).
- **Robot helpers.** `set_state`, `insert_word`, `insert_state_mapping`, `set_reverse_state_mapping`, `insert_transition` and `insert_reward` live in an external crate whose source is not part of this model. FineRobot.Robot.WarehouseStateSpace, the `Register*` methods, CoarseWorld.CoarseRobot.StateSpace and the transition-map methods assume that they append to the state and word lists, insert into maps overriding an existing key, and set the reverse map to the inverse of the index (`Common.Inverse`).
- **Integer widths.** `i32`/`usize` overflow and the `as i32`/`as usize` casts of indices are not modelled; integers are unbounded. Negative indices and wrap-around do not arise for the grids the source builds. Schedule.DecodeSchedule requires the robot index to be non-negative: a negative value cast to `usize` misses the reverse map, which the source unwraps.
- FineWorld.NextState: direction arithmetic is on `u8`. The model keeps directions in 0..255 but does not model `u8` overflow, which cannot arise for directions 0 to 3.
- **Floating point.** `f64` rewards, probabilities and policy values are `real`; NaN and rounding are not modelled. The policy entries are decoded with `as i32`, written out as truncation with saturation; NaN is not modelled.

## Findings

| source | as written | input that shows it | evidently intended | confidence | as-written member | corrected member |
|---|---|---|---|---|---|---|
| src/env/warehouse/high_fidelity_warehouse.rs:162-164 | The default corridor filter drops a cell only when it is both a rack AND a feed point, so racks and feed points become corridors. | The default 12 x 12 layout with feed point (0, 5): the rack (2, 1) is listed as a corridor. The state space then places the agent and packs on rack cells, which `warehouse_step` never lets it enter. | Drop a cell when it is a rack OR a feed point: corridors are the cells that are neither. | medium, not executed | Layout.RackCellIsCorridorAsWritten | Layout.IntendedCorridorsOfGrid |
| src/bin/rusty-warehouse.rs:548 | State 0 of `lr_replenishment` passes (0, 1) to `goto_rack_position`, which returns its first argument on the rack. So the automaton stays in 0 on the rack and advances on any other cell; state 2 passes (3, 2), advancing on the rack. | Rack (2, 1), feed point (0, 1), words at (2, 1), (0, 1), (2, 1): as written the run ends in 1, not the accepting 3. Words at (5, 5), (0, 1), (2, 1) reach 3 without a first visit of the rack. | State 0 advances to 1 when the agent reaches the rack, so the replenishment visits rack, feed point, rack. | medium, not executed | TaskAutomata.LrAsWrittenSkipsRack | TaskAutomata.LrReplenishment |
