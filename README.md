# Controller discovery: a Dafny model

This project models the controller discovery pipeline of ControllerTools
(`controllers()` in `backend/src/api.rs`) and the Xbox rules it relies on
(`backend/src/api/xbox.rs`). It proves properties of that model.

Discovery works in two passes. The HID pass takes the HID device list and:

- selects the Nintendo Pro Controller by counting its records: one or two records keep the first, three keep the first Bluetooth one (interface number -1);
- parses every other Nintendo record;
- filters Xbox records by product id, collapses adjacent records with equal serials (`Vec::dedup_by`), and parses five product ids;
- collapses adjacent equal serials over the whole list again, and parses five PlayStation product ids.

Every parse uses `?`, so the first failing parse aborts discovery.

The udev pass then scans the `input` subsystem. It keeps records whose gip starts with "gip" or "input" and is not "gip0.1". It marks each such gip as seen before it checks the vendor. The first record with a given gip becomes a controller when its vendor is Microsoft's, with the USB defaults of `update_xbox_controller`: capacity 100, status Charging.

Line 172 rebinds `controllers` to a fresh list. So, as written, the function returns only the udev-pass controllers. The HID results and the debug fixture are discarded, but a HID error still fails the call. The model keeps this behaviour.

Layout:

- `wrappers.dfy`: `Option` and `Result`.
- `devices.dfy`: the HID and udev records, `Status`, `Error`, and the `Controller` class, whose fields `update_xbox_controller` changes in place.
- `sequences.dfy`: `filter(..).collect()` and order-preserving selection.
- `dedup.dfy`: `dedup_by` on the serial number, as a function and as the in-place two-cursor algorithm on an array.
- `xbox.dfy`: the identifier table, the name table, the status heuristic, the UPower search loop and the battery fallback chain.
- `api.dfy`: the HID pass, the udev pass and `controllers()`.

Modelling choices:

- The HID device list, the Bluetooth lookups, the UPower answer and the udev scan are inputs.
- The parsers of the Nintendo and PlayStation modules, and `Controller::from_hidapi`, are function-valued parameters.
- `cfg!(debug_assertions)` and the fixture file are a flag and an optional controller.
- The `from_udev` call and the Bluetooth and UPower lookups rest on assumptions, listed under "## Left out".

A debug fixture is meant to add one controller to the result. The code discards it at line 172 of `backend/src/api.rs`, together with all HID results. The model follows the code.

## Model

| member | source | states |
|---|---|---|
| Devices.Controller.FromUdev | backend/src/api.rs:176 | The new controller copies vendor id, product id and gip from the record, and takes name, capacity, status and the fake flag as given. |
| Xbox.ControllerName | backend/src/api/xbox.rs:33-46 | "Xbox One S" exactly for 0x02ea, 0x02df and 0x0b20; "Xbox Series X/S" exactly for 0x0b12 and 0x0b13; "Xbox Elite 2" exactly for 0x0b00, 0x0b05 and 0x0b22; "Xbox Accessory" exactly for 0x02fe; "Xbox Unknown" exactly for every other product id. |
| Xbox.HeuristicDefault | backend/src/api/xbox.rs:54-60 | The (capacity, status) pair is (0, Unknown) or (100, Charging), the capacity is within 0..100, and the status is Charging exactly when the connection is not Bluetooth. |
| Xbox.UpdateXboxController | backend/src/api/xbox.rs:52-61 | Sets the name from the table for the controller's product id and sets (capacity, status) to the heuristic default. Its frame lets it change only name, capacity and status. |
| Xbox.IsXboxController | backend/src/api/xbox.rs:48-50 | Holds exactly when the vendor id is 0x045e. |
| Xbox.FirstReporting | backend/src/api/xbox.rs:75-93 | Returns the position of the first UPower entry whose proxy, `Model` and `Percentage` reads all succeed for the wanted model. No earlier entry does so. It returns the list length when no entry matches. |
| Xbox.UpowerPercentage | backend/src/api/xbox.rs:63-98 | The reference for the search loop. A percentage is present exactly when the bus, proxy and enumeration succeed and some entry reports the model. It is the percentage of the first such entry in list order. |
| Xbox.BatteryPercentageFromUpower | backend/src/api/xbox.rs:63-98 | The loop returns the percentage of the first reporting entry in list order. The result is present exactly when the bus, proxy and enumeration succeed and some entry reports the model. |
| Xbox.FirstReported | backend/src/api/xbox.rs:104-118 | In an ordered chain of probes, the first probe that reports a value wins. When none reports, the result is the default. |
| Xbox.XboxCapacity | backend/src/api/xbox.rs:104-118 | The nested match computes the same capacity as the chain: Bluetooth probe, then UPower, then 0. |
| Xbox.BluetoothFailuresFallBackAlike | backend/src/api/xbox.rs:107-117 | When the address lookup or the battery query fails, the capacity is the UPower value or 0. Both failure points give the same capacity. |
| Xbox.ParseXboxControllerData | backend/src/api/xbox.rs:100-123 | Always succeeds. The controller is built with the table name, status Unknown, and the capacity of the Bluetooth → UPower("Microsoft Xbox Controller") → 0 chain. |
| Sequences.Filter | backend/src/api.rs:57-63 | The filtered list is no longer than its input, and every element satisfies the filter. |
| Sequences.FilterSelects | backend/src/api.rs:31-37 | The filtered list is an order-preserving subsequence of the input. A position is selected exactly when its record satisfies the filter. |
| Dedup.DedupBySerial | backend/src/api.rs:84 | The result is no longer than the input. A non-empty input gives a non-empty result whose last record has the serial of the input's last record. |
| Dedup.DedupKeepsRunStarts | backend/src/api.rs:84 | The result is an order-preserving subsequence of the input. It keeps exactly the first record of every run of equal serials. |
| Dedup.DedupNoAdjacentDuplicates | backend/src/api.rs:118 | No two adjacent records of the result have equal serials. Two absent serials count as equal. |
| Dedup.DedupKeepsDistinctNeighbours | backend/src/api.rs:84 | A list without adjacent equal serials is returned unchanged. |
| Dedup.DedupIdempotent | backend/src/api.rs:118 | Deduplicating twice gives the same list as deduplicating once. |
| Dedup.SeparatedDuplicatesSurvive | backend/src/api.rs:84 | Two records with equal serials that are separated by a record with another serial leave two survivors with that serial. The collapse is by adjacency, not by set membership. |
| Dedup.EqualSerialNeighboursCollapse | backend/src/api.rs:118 | Two consecutive records with equal serials, including two without a serial, collapse to the first. |
| Dedup.DedupBySerialInPlace | backend/src/api.rs:84 | The two-cursor algorithm leaves in the buffer's prefix exactly the deduplicated list of the buffer's old contents, and returns that prefix's length. |
| Api.IsProController | backend/src/api.rs:33-36 | Holds exactly for vendor 0x057e with product id 0x2009. |
| Api.IsOtherNintendo | backend/src/api.rs:59-62 | Holds exactly for vendor 0x057e with any product id other than 0x2009. |
| Api.NintendoPassesPartition | backend/src/api.rs:31-63 | Every Nintendo record goes to exactly one of the two Nintendo filters, and no other record goes to either. |
| Api.FirstBluetoothRecord | backend/src/api.rs:47-49 | `find` on interface number -1: returns the first position with that interface number. No earlier record has it. It returns the length when no record has it. |
| Api.SelectProController | backend/src/api.rs:39-55 | One or two Pro records select the first. With three, a record is selected exactly when one has interface number -1, and it is the first such record. Zero or more than three select none. |
| Api.ProFromFirstRecord | backend/src/api.rs:39-43 | One or two Pro records produce exactly one Nintendo parse, of the first Pro record in enumeration order. |
| Api.ProFromBluetoothRecord | backend/src/api.rs:44-54 | Three Pro records produce no parse exactly when none has interface number -1. Otherwise they produce one parse, of the first Pro record in enumeration order with interface number -1. |
| Api.NoProForOtherCounts | backend/src/api.rs:39-55 | Zero or more than three Pro records produce no Pro parse. |
| Api.ProPass | backend/src/api.rs:31-55 | The Pro step pushes the parse of the selected record, propagates its error, or pushes nothing. |
| Api.OtherNintendoJobsOnePerRecord | backend/src/api.rs:57-67 | Every Nintendo record with a non-Pro product id is parsed exactly once, in enumeration order, with no dedup. |
| Api.JobsOfTotalClassifier | backend/src/api.rs:64-67 | A loop whose match always fires issues one parse per record, in order. |
| Api.Jobs | backend/src/api.rs:119-167 | A loop issues at most one parse per record. Api.JobsSelects gives the full characterisation. |
| Api.JobsSelects | backend/src/api.rs:119-167 | A loop issues exactly one parse per record whose match arm fires, in enumeration order. Parse k is that arm's parse of the k-th such record. Records whose arm does not fire issue none. |
| Api.IsXboxHidRecord | backend/src/api.rs:73-82 | Holds exactly for vendor 0x045e with product id 0x02df, 0x0b20, 0x0b12, 0x0b13, 0x0b00, 0x0b05 or 0x0b22. |
| Api.XboxJob | backend/src/api.rs:85-114 | An Xbox record is parsed exactly when its vendor is 0x045e and its product id is 0x02df, 0x0b20, 0x0b13, 0x0b05 or 0x0b22. |
| Api.XboxUsbRecordsFilteredButNotParsed | backend/src/api.rs:71-115 | The records that pass the Xbox filter but are never parsed are exactly the Microsoft records with product id 0x0b12 or 0x0b00. |
| Api.XboxJobsSelect | backend/src/api.rs:71-115 | Over the filtered and deduplicated Xbox list, a record is parsed exactly when its vendor is 0x045e and its product id is 0x02df, 0x0b20, 0x0b13, 0x0b05 or 0x0b22. It is parsed once, in order; every other record is ignored. |
| Api.UsbRecordShadowsBluetoothTwin | backend/src/api.rs:71-115 | A USB Series X/S record directly followed by its Bluetooth twin with the same serial yields no Xbox parse: the twin is collapsed into a record that is never parsed. |
| Api.PlayStationJob | backend/src/api.rs:119-166 | A record is parsed exactly when its vendor is 0x054c and its product id is DS3, DS, DS Edge, DS4 new or DS4 old. The names passed are "DualShock3", "DualSense" and "DualSense Edge" for the first three. |
| Api.PlayStationJobsSelect | backend/src/api.rs:117-167 | Over the globally deduplicated list, a record is parsed exactly when its vendor is 0x054c and its product id is one of the five PlayStation ids. It is parsed once, in order, by the parser its product id selects; every other record is ignored. |
| Api.GlobalDedupDropsPlayStationTwin | backend/src/api.rs:117-167 | The global dedup ignores vendors. A DualSense record right after a non-PlayStation record with the same serial is never parsed. |
| Api.RunJobs | backend/src/api.rs:42-167 | Pushing each parse with `?` succeeds exactly when every parse succeeds. The list then holds the earlier entries followed by the parse results in order. Otherwise the error is that of the first failing parse. |
| Api.RunJobsAppend | backend/src/api.rs:42-167 | Running two groups of parses is running the first group, then, unless it failed, the second group on its result. |
| Api.JobsAppend | backend/src/api.rs:64-67 | The parses issued for a concatenation of records are the concatenated parses. |
| Api.StopsAtFirstError | backend/src/api.rs:65 | Once a loop has failed, the records after the failing one change nothing. |
| Api.PushReports | backend/src/api.rs:119-167 | The loop with early return on error gives the same result as running its parses in order. |
| Api.Collect | backend/src/api.rs:117 | `collect()` into a fresh buffer holds exactly the listed records, in order. |
| Api.ContinueWith | backend/src/api.rs:85-115 | A loop after a failed step does not run; otherwise it runs on the step's list. |
| Api.HidJobsInPhases | backend/src/api.rs:31-167 | The HID pass runs its Pro, other Nintendo, Xbox and PlayStation parses one after another. |
| Api.HidPass | backend/src/api.rs:31-167 | With dedup done in place on collected buffers, the HID pass gives exactly the result of running the specified parses in order, starting from the fixture list. |
| Api.ConsideredGip | backend/src/api.rs:179 | Holds exactly when the gip begins with "gip" or with "input" and is not "gip0.1". |
| Api.UdevSelectedExactly | backend/src/api.rs:175-190 | The udev selection is an order-preserving subsequence of the scan. A record is selected exactly when its gip is considered, no earlier record of any vendor has that gip, and its vendor is 0x045e. |
| Api.UdevSelectedDistinctGips | backend/src/api.rs:183-189 | No two selected records share a gip. Every selected record is a Microsoft record with a considered gip. |
| Api.ForeignRecordHidesLaterGip | backend/src/api.rs:184-185 | Because `seen_gips` is filled before the vendor check, a non-Microsoft record hides a later Microsoft record with the same gip. |
| Api.VisitUdevRecord | backend/src/api.rs:176-189 | One loop iteration adds the gip to the seen set when it is considered. It pushes one fresh controller exactly when the gip is considered, unseen, and of Microsoft's vendor; that controller is built from the record with the USB defaults. |
| Api.UdevPass | backend/src/api.rs:172-190 | The loop returns one fresh controller per selected record, in order. Each has the record's ids and gip, the table name, capacity 100, status Charging and is not fake. No two share a gip. |
| Api.FakeControllers | backend/src/api.rs:25-27 | The list before the HID pass holds one entry, the fixture, exactly when the build is a debug build and a fixture was loaded; otherwise it is empty. |
| Api.Controllers | backend/src/api.rs:20-193 | Errors come in source order: the HID source, then the first failing HID parse, then the udev scan. The call succeeds exactly when none of these fails. On success it returns only the udev-pass controllers, with distinct gips. |

## Left out

- `controllers_async` (backend/src/api.rs:14-18) is left out: it only moves the call onto a blocking worker thread.
- `HidApi::new`, `Enumerator::new`, `match_subsystem` and `scan_devices` are foreign calls. Each is an input that is either a record list or an error. The three udev steps are merged into one udev error.
- One HID list stands for the four `device_list()` calls: the model assumes they all return the same snapshot.
- Xbox.ParseXboxControllerData: one UPower answer and one pair of Bluetooth lookup functions serve every Xbox parse of a discovery call, through `XboxLookups`. The source opens a new D-Bus connection for every `get_battery_percentage_from_upower` call (backend/src/api/xbox.rs:65, reached at most once per parsed Xbox record, from line 110 or 116, when the Bluetooth step fails). The model therefore assumes that the UPower device list and its properties do not change during one discovery.
- `parse_fake_controller`: its file read and JSON parse are left out. The fixture is an optional input, pushed only on debug builds. Line 172 discards it anyway.
- The parsers of the `nintendo` and `playstation` modules, the `bluetooth` lookups and `Controller::from_hidapi` are not part of this model. They are parameters, and the results of the parsers are opaque.
- `Controller::from_udev`: its definition is not part of this model, so it rests on two assumptions. First, the gip it derives from the udev device is taken as a field of the input record, so its derivation is not modelled. Second, its fifth argument (`false` at backend/src/api.rs:176) is taken to be the fake flag, which is what `Devices.Controller.FromUdev` and the not-fake clause of `Api.UdevPass` rely on.
- The vendor and product ids of the `nintendo` and `playstation` modules are not part of this model. The model uses the well-known USB ids (0x057e/0x2009 and 0x054c with 0x0268, 0x0ce6, 0x0df2, 0x09cc and 0x05c4). The contracts of the classifiers state these values.
- The zbus connection and proxies are reduced to one UPower answer: a failure, or a list of UPower entries. Each entry records whether its proxy could be built and holds its optional `Model` and `Percentage`.
- Xbox.BatteryPercentageFromUpower: takes the `Percentage` property as an already-converted u8. The saturating f64-to-u8 cast of backend/src/api/xbox.rs:88 is not modelled.
- Xbox.ParseXboxControllerData: does not bound the capacity to 0..100. The Bluetooth battery value is any u8, and the source does not clamp it either.
- The `debug!`/`error!` logging and the error message texts are left out.
- The accessory battery lookup by a fixed power-service path and the command-line battery strategies are in neither `backend/src/api.rs` nor `backend/src/api/xbox.rs`, so they are not modelled.
