/**
 * `controllers()`: the discovery pipeline. A HID pass selects and parses
 * Nintendo, Xbox and PlayStation records; a udev pass then builds a fresh
 * list from the `input` subsystem, and only that list is returned.
 */
module Api {
  import opened Wrappers
  import opened Devices
  import opened Sequences
  import opened Dedup
  import opened Xbox

  // Identifier tables of the Nintendo and PlayStation modules.
  const VENDOR_ID_NINTENDO: u16 := 0x057e
  const PRODUCT_ID_NINTENDO_PROCON: u16 := 0x2009
  const DS_VENDOR_ID: u16 := 0x054c
  const DS3_PRODUCT_ID: u16 := 0x0268
  const DS_PRODUCT_ID: u16 := 0x0ce6
  const DS_EDGE_PRODUCT_ID: u16 := 0x0df2
  const DS4_NEW_PRODUCT_ID: u16 := 0x09cc
  const DS4_OLD_PRODUCT_ID: u16 := 0x05c4

  /** The interface number a record reports when it is not a USB interface. */
  const NOT_USB_INTERFACE: int := -1

  // ---------------------------------------------------------------------
  // Classification of HID records

  /** The Pro Controller filter of the first Nintendo pass. */
  predicate IsProController(d: HidDevice): (b: bool)
    ensures b <==> d.vendorId == 0x057e && d.productId == 0x2009
  {
    d.vendorId == VENDOR_ID_NINTENDO && d.productId == PRODUCT_ID_NINTENDO_PROCON
  }

  /** The filter of the second Nintendo pass: Nintendo's vendor, any other product. */
  predicate IsOtherNintendo(d: HidDevice): (b: bool)
    ensures b <==> d.vendorId == 0x057e && d.productId != 0x2009
  {
    d.vendorId == VENDOR_ID_NINTENDO && d.productId != PRODUCT_ID_NINTENDO_PROCON
  }

  /** Every Nintendo record goes to exactly one of the two Nintendo passes; no other record goes to either. */
  lemma NintendoPassesPartition(d: HidDevice)
    ensures IsProController(d) || IsOtherNintendo(d) <==> d.vendorId == VENDOR_ID_NINTENDO
    ensures !(IsProController(d) && IsOtherNintendo(d))
  {
  }

  /** The Xbox filter ahead of the serial dedup (seven product ids, USB ones included). */
  predicate IsXboxHidRecord(d: HidDevice): (b: bool)
    ensures b <==> d.vendorId == 0x045e && d.productId in {0x02df, 0x0b20, 0x0b12, 0x0b13, 0x0b00, 0x0b05, 0x0b22}
  {
    && d.vendorId == MS_VENDOR_ID
    && d.productId in {
         XBOX_ONE_S_CONTROLLER_BT_PRODUCT_ID, XBOX_ONE_S_LATEST_FW_PRODUCT_ID,
         XBOX_WIRELESS_CONTROLLER_USB_PRODUCT_ID, XBOX_WIRELESS_CONTROLLER_BT_PRODUCT_ID,
         XBOX_WIRELESS_ELITE_CONTROLLER_USB_PRODUCT_ID, XBOX_WIRELESS_ELITE_CONTROLLER_BT_PRODUCT_ID,
         XBOX_WIRELESS_ELITE_CONTROLLER_BTLE_PRODUCT_ID }
  }

  /** A report parse the HID pass asks a device module for. */
  datatype ParseJob =
    | NintendoReport(device: HidDevice)
    | XboxReport(device: HidDevice)
    | DualShock3Report(device: HidDevice, name: string)
    | DualSenseReport(device: HidDevice, name: string)
    | DualShock4Report(device: HidDevice)

  /** Every non-Pro Nintendo record is parsed. */
  function OtherNintendoJob(d: HidDevice): Option<ParseJob> {
    Some(NintendoReport(d))
  }

  /** The match of the Xbox loop: five product ids are parsed, the rest fall through. */
  function XboxJob(d: HidDevice): (j: Option<ParseJob>)
    ensures j.Some? <==> d.vendorId == 0x045e && d.productId in {0x02df, 0x0b20, 0x0b13, 0x0b05, 0x0b22}
    ensures j.Some? ==> j == Some(XboxReport(d))
  {
    if d.vendorId != MS_VENDOR_ID then None
    else if d.productId == XBOX_ONE_S_CONTROLLER_BT_PRODUCT_ID then Some(XboxReport(d))
    else if d.productId == XBOX_ONE_S_LATEST_FW_PRODUCT_ID then Some(XboxReport(d))
    else if d.productId == XBOX_WIRELESS_CONTROLLER_BT_PRODUCT_ID then Some(XboxReport(d))
    else if d.productId == XBOX_WIRELESS_ELITE_CONTROLLER_BT_PRODUCT_ID then Some(XboxReport(d))
    else if d.productId == XBOX_WIRELESS_ELITE_CONTROLLER_BTLE_PRODUCT_ID then Some(XboxReport(d))
    else None
  }

  /** The USB Series and Elite records pass the filter, take part in the dedup, and are never parsed. */
  lemma XboxUsbRecordsFilteredButNotParsed(d: HidDevice)
    ensures IsXboxHidRecord(d) && XboxJob(d).None? <==>
              d.vendorId == MS_VENDOR_ID && d.productId in {0x0b12, 0x0b00}
  {
  }

  /** The match of the global loop: Sony vendor with one of five product ids. */
  function PlayStationJob(d: HidDevice): (j: Option<ParseJob>)
    ensures j.Some? <==>
              d.vendorId == 0x054c && d.productId in {0x0268, 0x0ce6, 0x0df2, 0x09cc, 0x05c4}
    ensures j.Some? ==> j.value.device == d
    ensures j == Some(DualShock3Report(d, "DualShock3")) <==> j.Some? && d.productId == DS3_PRODUCT_ID
    ensures j == Some(DualSenseReport(d, "DualSense")) <==> j.Some? && d.productId == DS_PRODUCT_ID
    ensures j == Some(DualSenseReport(d, "DualSense Edge")) <==> j.Some? && d.productId == DS_EDGE_PRODUCT_ID
    ensures j == Some(DualShock4Report(d)) <==>
              j.Some? && d.productId in {DS4_NEW_PRODUCT_ID, DS4_OLD_PRODUCT_ID}
  {
    if d.vendorId != DS_VENDOR_ID then None
    else if d.productId == DS3_PRODUCT_ID then Some(DualShock3Report(d, "DualShock3"))
    else if d.productId == DS_PRODUCT_ID then Some(DualSenseReport(d, "DualSense"))
    else if d.productId == DS_EDGE_PRODUCT_ID then Some(DualSenseReport(d, "DualSense Edge"))
    else if d.productId == DS4_NEW_PRODUCT_ID then Some(DualShock4Report(d))
    else if d.productId == DS4_OLD_PRODUCT_ID then Some(DualShock4Report(d))
    else None
  }

  // ---------------------------------------------------------------------
  // Nintendo Pro Controller selection

  /** Position of the first record with the non-USB interface number, or `|pros|`. */
  function FirstBluetoothRecord(pros: seq<HidDevice>): (i: nat)
    ensures i <= |pros|
    ensures i < |pros| ==> pros[i].interfaceNumber == NOT_USB_INTERFACE
    ensures forall j :: 0 <= j < i ==> pros[j].interfaceNumber != NOT_USB_INTERFACE
    decreases |pros|
  {
    if pros == [] then 0
    else if pros[0].interfaceNumber == NOT_USB_INTERFACE then 0
    else 1 + FirstBluetoothRecord(pros[1..])
  }

  /**
   * The case analysis on the number of Pro records: one (Bluetooth) or two
   * (USB) keep the first; three (USB and Bluetooth) keep the first with the
   * non-USB interface number, if any; any other count keeps none.
   */
  function SelectProController(pros: seq<HidDevice>): (r: Option<HidDevice>)
    ensures 1 <= |pros| <= 2 ==> r == Some(pros[0])
    ensures |pros| == 3 ==>
              (r.Some? <==> exists i :: 0 <= i < 3 && pros[i].interfaceNumber == NOT_USB_INTERFACE)
    ensures |pros| == 3 && r.Some? ==>
              exists i ::
                && 0 <= i < 3
                && r.value == pros[i]
                && pros[i].interfaceNumber == NOT_USB_INTERFACE
                && forall j :: 0 <= j < i ==> pros[j].interfaceNumber != NOT_USB_INTERFACE
    ensures |pros| == 0 || |pros| > 3 ==> r.None?
  {
    if |pros| == 1 || |pros| == 2 then Some(pros[0])
    else if |pros| == 3 then
      var i := FirstBluetoothRecord(pros);
      if i < |pros| then Some(pros[i]) else None
    else None
  }

  // ---------------------------------------------------------------------
  // The parse jobs of the HID pass, in the order the source issues them

  /** The jobs a loop over `devices` issues when each record is matched by `classify`. */
  function Jobs(devices: seq<HidDevice>, classify: HidDevice -> Option<ParseJob>): (jobs: seq<ParseJob>)
    ensures |jobs| <= |devices|
    decreases |devices|
  {
    if devices == [] then []
    else
      var rest := Jobs(devices[..|devices| - 1], classify);
      match classify(devices[|devices| - 1])
      case Some(j) => rest + [j]
      case None => rest
  }

  function ProJobs(hid: seq<HidDevice>): seq<ParseJob> {
    match SelectProController(Filter(hid, IsProController))
    case Some(d) => [NintendoReport(d)]
    case None => []
  }

  function OtherNintendoJobs(hid: seq<HidDevice>): seq<ParseJob> {
    Jobs(Filter(hid, IsOtherNintendo), OtherNintendoJob)
  }

  function XboxJobs(hid: seq<HidDevice>): seq<ParseJob> {
    Jobs(DedupBySerial(Filter(hid, IsXboxHidRecord)), XboxJob)
  }

  function PlayStationJobs(hid: seq<HidDevice>): seq<ParseJob> {
    Jobs(DedupBySerial(hid), PlayStationJob)
  }

  /** Every parse the HID pass performs, in order. */
  function HidJobs(hid: seq<HidDevice>): seq<ParseJob> {
    ProJobs(hid) + OtherNintendoJobs(hid) + XboxJobs(hid) + PlayStationJobs(hid)
  }

  /** The device modules' report parsers (opaque here), and the Xbox lookups. */
  datatype HidParsers<C> = HidParsers(
    nintendo: HidDevice -> Result<C, Error>,
    dualShock3: (HidDevice, string) -> Result<C, Error>,
    dualSense: (HidDevice, string) -> Result<C, Error>,
    dualShock4: HidDevice -> Result<C, Error>,
    xbox: XboxLookups<C>)

  function RunJob<C>(job: ParseJob, parsers: HidParsers<C>): Result<C, Error> {
    match job
    case NintendoReport(d) => parsers.nintendo(d)
    case XboxReport(d) => ParseXboxControllerData(d, parsers.xbox)
    case DualShock3Report(d, name) => parsers.dualShock3(d, name)
    case DualSenseReport(d, name) => parsers.dualSense(d, name)
    case DualShock4Report(d) => parsers.dualShock4(d)
  }

  /**
   * Running jobs one after another and pushing each result, as `?` does:
   * the first failing job's error ends the run.
   */
  function RunJobs<C>(acc: seq<C>, jobs: seq<ParseJob>, parsers: HidParsers<C>): (r: Result<seq<C>, Error>)
    ensures r.Ok? <==> forall k :: 0 <= k < |jobs| ==> RunJob(jobs[k], parsers).Ok?
    ensures r.Ok? ==> |r.value| == |acc| + |jobs| && r.value[..|acc|] == acc
    ensures r.Ok? ==> forall k :: 0 <= k < |jobs| ==> r.value[|acc| + k] == RunJob(jobs[k], parsers).value
    ensures r.Err? ==>
              exists k ::
                && 0 <= k < |jobs|
                && RunJob(jobs[k], parsers) == Err(r.error)
                && forall l :: 0 <= l < k ==> RunJob(jobs[l], parsers).Ok?
    decreases |jobs|
  {
    if jobs == [] then Ok(acc)
    else
      var n := |jobs| - 1;
      match RunJobs(acc, jobs[..n], parsers)
      case Err(e) => Err(e)
      case Ok(cs) =>
        match RunJob(jobs[n], parsers)
        case Err(e) => Err(e)
        case Ok(c) => Ok(cs + [c])
  }

  /** Running `a + b` runs `a`, then, unless it failed, runs `b` on its result. */
  lemma {:induction false} RunJobsAppend<C>(acc: seq<C>, a: seq<ParseJob>, b: seq<ParseJob>, parsers: HidParsers<C>)
    ensures RunJobs(acc, a + b, parsers) ==
              match RunJobs(acc, a, parsers)
              case Err(e) => Err(e)
              case Ok(cs) => RunJobs(cs, b, parsers)
    decreases |b|
  {
    if b == [] {
      assert a + b == a;
    } else {
      var n := |b| - 1;
      assert (a + b)[..|a + b| - 1] == a + b[..n];
      assert (a + b)[|a + b| - 1] == b[n];
      RunJobsAppend(acc, a, b[..n], parsers);
    }
  }

  /** The jobs of a concatenation are the concatenated jobs. */
  lemma {:induction false} JobsAppend(a: seq<HidDevice>, b: seq<HidDevice>, classify: HidDevice -> Option<ParseJob>)
    ensures Jobs(a + b, classify) == Jobs(a, classify) + Jobs(b, classify)
    decreases |b|
  {
    if b == [] {
      assert a + b == a;
    } else {
      var n := |b| - 1;
      assert (a + b)[..|a + b| - 1] == a + b[..n];
      assert (a + b)[|a + b| - 1] == b[n];
      JobsAppend(a, b[..n], classify);
    }
  }

  /** A classifier that always answers issues exactly one job per record, in order. */
  lemma {:induction false} JobsOfTotalClassifier(devices: seq<HidDevice>, classify: HidDevice -> Option<ParseJob>)
    requires forall k :: 0 <= k < |devices| ==> classify(devices[k]).Some?
    ensures |Jobs(devices, classify)| == |devices|
    ensures forall k :: 0 <= k < |devices| ==> Jobs(devices, classify)[k] == classify(devices[k]).value
    decreases |devices|
  {
    if devices != [] {
      var n := |devices| - 1;
      JobsOfTotalClassifier(devices[..n], classify);
    }
  }

  /**
   * A loop issues exactly one job per record whose arm matches, in
   * enumeration order, and none for the others.
   */
  lemma {:induction false} JobsSelects(devices: seq<HidDevice>, classify: HidDevice -> Option<ParseJob>)
    returns (idx: seq<nat>)
    ensures |idx| == |Jobs(devices, classify)|
    ensures forall k :: 0 <= k < |idx| ==>
              idx[k] < |devices| && classify(devices[idx[k]]).Some?
              && Jobs(devices, classify)[k] == classify(devices[idx[k]]).value
    ensures forall k, l :: 0 <= k < l < |idx| ==> idx[k] < idx[l]
    ensures forall i :: 0 <= i < |devices| ==> (i in idx <==> classify(devices[i]).Some?)
    decreases |devices|
  {
    if devices == [] {
      idx := [];
    } else {
      var pidx := JobsSelects(devices[..|devices| - 1], classify);
      idx := JobsSelectsStep(devices, classify, pidx);
    }
  }

  /** The inductive step of `JobsSelects`: the last record adds its job when its arm matches. */
  lemma JobsSelectsStep(devices: seq<HidDevice>, classify: HidDevice -> Option<ParseJob>, pidx: seq<nat>)
    returns (idx: seq<nat>)
    requires |devices| > 0
    requires |pidx| == |Jobs(devices[..|devices| - 1], classify)|
    requires forall k :: 0 <= k < |pidx| ==>
               pidx[k] < |devices| - 1 && classify(devices[..|devices| - 1][pidx[k]]).Some?
               && Jobs(devices[..|devices| - 1], classify)[k] == classify(devices[..|devices| - 1][pidx[k]]).value
    requires forall k, l :: 0 <= k < l < |pidx| ==> pidx[k] < pidx[l]
    requires forall i :: 0 <= i < |devices| - 1 ==>
               (i in pidx <==> classify(devices[..|devices| - 1][i]).Some?)
    ensures |idx| == |Jobs(devices, classify)|
    ensures forall k :: 0 <= k < |idx| ==>
              idx[k] < |devices| && classify(devices[idx[k]]).Some?
              && Jobs(devices, classify)[k] == classify(devices[idx[k]]).value
    ensures forall k, l :: 0 <= k < l < |idx| ==> idx[k] < idx[l]
    ensures forall i :: 0 <= i < |devices| ==> (i in idx <==> classify(devices[i]).Some?)
  {
    var n := |devices| - 1;
    var prefix := devices[..n];
    var kept := Jobs(prefix, classify);
    assert Jobs(devices, classify) == if classify(devices[n]).Some? then kept + [classify(devices[n]).value] else kept;
    forall k | 0 <= k < |pidx|
      ensures classify(devices[pidx[k]]).Some? && kept[k] == classify(devices[pidx[k]]).value
    {
      assert prefix[pidx[k]] == devices[pidx[k]];
    }
    assert n !in pidx;
    if classify(devices[n]).Some? {
      idx := pidx + [n];
      forall i | 0 <= i <= n
        ensures i in idx <==> i in pidx || i == n
      {
        assert i in idx <==> i in pidx || i in [n];
      }
      forall k | 0 <= k < |idx|
        ensures idx[k] < |devices| && classify(devices[idx[k]]).Some?
                && Jobs(devices, classify)[k] == classify(devices[idx[k]]).value
      {
        if k < |pidx| {
          assert idx[k] == pidx[k];
        }
      }
    } else {
      idx := pidx;
    }
    forall i | 0 <= i < |devices|
      ensures i in idx <==> classify(devices[i]).Some?
    {
      if i < n {
        assert prefix[i] == devices[i];
        assert i in idx <==> i in pidx;
      }
    }
  }

  /**
   * Over the filtered and deduplicated Xbox list, a record is parsed exactly
   * when it has one of the five parsed product ids, once and in order.
   */
  lemma XboxJobsSelect(hid: seq<HidDevice>) returns (idx: seq<nat>)
    ensures var xbox := DedupBySerial(Filter(hid, IsXboxHidRecord));
      && |idx| == |XboxJobs(hid)|
      && (forall k :: 0 <= k < |idx| ==> idx[k] < |xbox| && XboxJobs(hid)[k] == XboxReport(xbox[idx[k]]))
      && (forall k, l :: 0 <= k < l < |idx| ==> idx[k] < idx[l])
      && (forall i :: 0 <= i < |xbox| ==>
            (i in idx <==> xbox[i].vendorId == 0x045e && xbox[i].productId in {0x02df, 0x0b20, 0x0b13, 0x0b05, 0x0b22}))
  {
    idx := JobsSelects(DedupBySerial(Filter(hid, IsXboxHidRecord)), XboxJob);
  }

  /**
   * Over the globally deduplicated list, a record is parsed exactly when it
   * is a Sony record with one of the five PlayStation product ids, once and
   * in order, by the parser its product id selects.
   */
  lemma PlayStationJobsSelect(hid: seq<HidDevice>) returns (idx: seq<nat>)
    ensures var unique := DedupBySerial(hid);
      && |idx| == |PlayStationJobs(hid)|
      && (forall k :: 0 <= k < |idx| ==>
            idx[k] < |unique| && PlayStationJob(unique[idx[k]]) == Some(PlayStationJobs(hid)[k]))
      && (forall k, l :: 0 <= k < l < |idx| ==> idx[k] < idx[l])
      && (forall i :: 0 <= i < |unique| ==>
            (i in idx <==> unique[i].vendorId == 0x054c && unique[i].productId in {0x0268, 0x0ce6, 0x0df2, 0x09cc, 0x05c4}))
  {
    idx := JobsSelects(DedupBySerial(hid), PlayStationJob);
  }

  /**
   * Every non-Pro Nintendo record is parsed exactly once, in enumeration
   * order, with no dedup.
   */
  lemma OtherNintendoJobsOnePerRecord(hid: seq<HidDevice>) returns (idx: seq<nat>)
    ensures |OtherNintendoJobs(hid)| == |idx|
    ensures forall k :: 0 <= k < |idx| ==> idx[k] < |hid| && OtherNintendoJobs(hid)[k] == NintendoReport(hid[idx[k]])
    ensures forall k, l :: 0 <= k < l < |idx| ==> idx[k] < idx[l]
    ensures forall i :: 0 <= i < |hid| ==> (i in idx <==> IsOtherNintendo(hid[i]))
  {
    idx := FilterSelects(hid, IsOtherNintendo);
    JobsOfTotalClassifier(Filter(hid, IsOtherNintendo), OtherNintendoJob);
  }

  /** The first record satisfying `keep` is the first element of the filtered list. */
  lemma FilterHead(s: seq<HidDevice>, keep: HidDevice -> bool) returns (i: nat)
    requires |Filter(s, keep)| > 0
    ensures i < |s| && keep(s[i]) && Filter(s, keep)[0] == s[i]
    ensures forall j :: 0 <= j < i ==> !keep(s[j])
  {
    var idx := FilterSelects(s, keep);
    i := idx[0];
  }

  /** One or two Pro records: exactly one parse, of the first Pro record in enumeration order. */
  lemma ProFromFirstRecord(hid: seq<HidDevice>) returns (i: nat)
    requires 1 <= |Filter(hid, IsProController)| <= 2
    ensures i < |hid| && IsProController(hid[i])
    ensures forall j :: 0 <= j < i ==> !IsProController(hid[j])
    ensures ProJobs(hid) == [NintendoReport(hid[i])]
  {
    i := FilterHead(hid, IsProController);
  }

  /** Zero or more than three Pro records: no Pro parse at all. */
  lemma NoProForOtherCounts(hid: seq<HidDevice>)
    requires |Filter(hid, IsProController)| == 0 || |Filter(hid, IsProController)| > 3
    ensures ProJobs(hid) == []
  {
  }

  /** Three Pro records: the parse is of the first Pro record, in enumeration order, with the non-USB interface number, or none if there is none. */
  lemma ProFromBluetoothRecord(hid: seq<HidDevice>)
    requires |Filter(hid, IsProController)| == 3
    ensures ProJobs(hid) == [] <==>
              forall i :: 0 <= i < |hid| && IsProController(hid[i]) ==> hid[i].interfaceNumber != NOT_USB_INTERFACE
    ensures ProJobs(hid) != [] ==>
              exists i ::
                && 0 <= i < |hid| && IsProController(hid[i]) && hid[i].interfaceNumber == NOT_USB_INTERFACE
                && ProJobs(hid) == [NintendoReport(hid[i])]
                && forall j :: 0 <= j < i && IsProController(hid[j]) ==> hid[j].interfaceNumber != NOT_USB_INTERFACE
  {
    var pros := Filter(hid, IsProController);
    var idx := FilterSelects(hid, IsProController);
    if SelectProController(pros).Some? {
      var k := FirstBluetoothRecord(pros);
      var i := idx[k];
      assert pros[k] == hid[i];
      forall j | 0 <= j < i && IsProController(hid[j])
        ensures hid[j].interfaceNumber != NOT_USB_INTERFACE
      {
        assert j in idx;
        var m :| 0 <= m < |idx| && idx[m] == j;
        assert m < k;
        assert pros[m] == hid[j];
      }
    } else {
      forall i | 0 <= i < |hid| && IsProController(hid[i])
        ensures hid[i].interfaceNumber != NOT_USB_INTERFACE
      {
        assert i in idx;
        var m :| 0 <= m < |idx| && idx[m] == i;
        assert pros[m] == hid[i];
      }
    }
  }

  /**
   * A USB Series X/S record directly followed by the Bluetooth record with
   * the same serial: the Bluetooth one is collapsed into the USB one, which
   * is never parsed, so no Xbox parse happens.
   */
  lemma UsbRecordShadowsBluetoothTwin(usb: HidDevice, bt: HidDevice)
    requires usb.vendorId == MS_VENDOR_ID && usb.productId == XBOX_WIRELESS_CONTROLLER_USB_PRODUCT_ID
    requires bt.vendorId == MS_VENDOR_ID && bt.productId == XBOX_WIRELESS_CONTROLLER_BT_PRODUCT_ID
    requires usb.serialNumber == bt.serialNumber
    ensures XboxJobs([usb, bt]) == []
  {
    var both := [usb, bt];
    assert both[..1] == [usb];
    assert [usb][..0] == [];
    assert Filter(both, IsXboxHidRecord) == both;
    EqualSerialNeighboursCollapse(usb, bt);
  }

  /**
   * The global dedup does not look at vendors: a DualSense record right
   * after any other record with the same serial (two records without a
   * serial included) is dropped and produces no PlayStation parse.
   */
  lemma GlobalDedupDropsPlayStationTwin(other: HidDevice, pad: HidDevice)
    requires PlayStationJob(other).None?
    requires pad.vendorId == DS_VENDOR_ID && pad.productId == DS_PRODUCT_ID
    requires other.serialNumber == pad.serialNumber
    ensures PlayStationJobs([other, pad]) == []
  {
    EqualSerialNeighboursCollapse(other, pad);
    assert [other][..0] == [];
  }

  // ---------------------------------------------------------------------
  // The HID pass

  /**
   * The body of one `for device_info in ..` loop of the HID pass: match each
   * record, parse it when an arm matches (stopping at the first error) and
   * push the controller.
   */
  method PushReports<C>(acc: seq<C>, devices: seq<HidDevice>, classify: HidDevice -> Option<ParseJob>, parsers: HidParsers<C>)
    returns (r: Result<seq<C>, Error>)
    ensures r == RunJobs(acc, Jobs(devices, classify), parsers)
  {
    var controllers := acc;
    for i := 0 to |devices|
      invariant RunJobs(acc, Jobs(devices[..i], classify), parsers) == Ok(controllers)
    {
      JobsStep(devices, i, classify);
      match classify(devices[i]) {
        case Some(job) =>
          var parsed := RunJob(job, parsers);
          if parsed.Err? {
            StopsAtFirstError(acc, devices, i + 1, classify, parsers);
            return Err(parsed.error);
          }
          controllers := controllers + [parsed.value];
        case None =>
      }
    }
    assert devices[..|devices|] == devices;
    return Ok(controllers);
  }

  /** One more record of the loop adds its job, if its arm matched. */
  lemma JobsStep(devices: seq<HidDevice>, i: nat, classify: HidDevice -> Option<ParseJob>)
    requires i < |devices|
    ensures classify(devices[i]).Some? ==>
              Jobs(devices[..i + 1], classify) == Jobs(devices[..i], classify) + [classify(devices[i]).value]
    ensures classify(devices[i]).None? ==> Jobs(devices[..i + 1], classify) == Jobs(devices[..i], classify)
  {
    assert devices[..i + 1][..i] == devices[..i];
    assert devices[..i + 1][i] == devices[i];
  }

  /** Once a prefix of the loop has failed, the records after it change nothing. */
  lemma StopsAtFirstError<C>(acc: seq<C>, devices: seq<HidDevice>, i: nat, classify: HidDevice -> Option<ParseJob>,
                             parsers: HidParsers<C>)
    requires i <= |devices|
    requires RunJobs(acc, Jobs(devices[..i], classify), parsers).Err?
    ensures RunJobs(acc, Jobs(devices, classify), parsers) == RunJobs(acc, Jobs(devices[..i], classify), parsers)
  {
    assert devices == devices[..i] + devices[i..];
    JobsAppend(devices[..i], devices[i..], classify);
    RunJobsAppend(acc, Jobs(devices[..i], classify), Jobs(devices[i..], classify), parsers);
  }

  /** Copy a list into a fresh buffer, as `collect()` into a `Vec` does. */
  method Collect(s: seq<HidDevice>) returns (a: array<HidDevice>)
    ensures fresh(a) && a[..] == s
  {
    a := new HidDevice[|s|](i requires 0 <= i < |s| => s[i]);
    assert a[..] == s;
  }

  /** Carry on with `jobs` after a run that ended in `r`. */
  function Continue<C>(r: Result<seq<C>, Error>, jobs: seq<ParseJob>, parsers: HidParsers<C>): Result<seq<C>, Error> {
    match r
    case Err(e) => Err(e)
    case Ok(cs) => RunJobs(cs, jobs, parsers)
  }

  /** Running the HID jobs is running the four phases one after another. */
  lemma HidJobsInPhases<C>(hid: seq<HidDevice>, initial: seq<C>, parsers: HidParsers<C>)
    ensures RunJobs(initial, HidJobs(hid), parsers) ==
              Continue(Continue(Continue(RunJobs(initial, ProJobs(hid), parsers),
                OtherNintendoJobs(hid), parsers), XboxJobs(hid), parsers), PlayStationJobs(hid), parsers)
  {
    var a := ProJobs(hid);
    var b := OtherNintendoJobs(hid);
    var c := XboxJobs(hid);
    RunJobsAppend(initial, a, b, parsers);
    RunJobsAppend(initial, a + b, c, parsers);
    RunJobsAppend(initial, a + b + c, PlayStationJobs(hid), parsers);
  }

  /** The Pro Controller step, by the number of Pro records. */
  method ProPass<C>(hid: seq<HidDevice>, initial: seq<C>, parsers: HidParsers<C>) returns (r: Result<seq<C>, Error>)
    ensures r == RunJobs(initial, ProJobs(hid), parsers)
  {
    var pros := Filter(hid, IsProController);
    if |pros| == 1 || |pros| == 2 {
      var parsed := parsers.nintendo(pros[0]);
      if parsed.Err? {
        return Err(parsed.error);
      }
      return Ok(initial + [parsed.value]);
    } else if |pros| == 3 {
      var i := FirstBluetoothRecord(pros);
      if i < |pros| {
        var parsed := parsers.nintendo(pros[i]);
        if parsed.Err? {
          return Err(parsed.error);
        }
        return Ok(initial + [parsed.value]);
      }
    }
    return Ok(initial);
  }

  /** A phase after a failed one does not run. */
  method ContinueWith<C>(r: Result<seq<C>, Error>, devices: seq<HidDevice>, classify: HidDevice -> Option<ParseJob>,
                         parsers: HidParsers<C>) returns (next: Result<seq<C>, Error>)
    ensures next == Continue(r, Jobs(devices, classify), parsers)
  {
    if r.Err? {
      return Err(r.error);
    }
    next := PushReports(r.value, devices, classify, parsers);
  }

  /**
   * The HID half of `controllers()`, starting from `initial` (the debug
   * fixture, if any): the Pro selection, the other Nintendo records, the
   * filtered and deduplicated Xbox records, and the globally deduplicated
   * PlayStation records.
   */
  method HidPass<C>(hid: seq<HidDevice>, initial: seq<C>, parsers: HidParsers<C>) returns (r: Result<seq<C>, Error>)
    ensures r == RunJobs(initial, HidJobs(hid), parsers)
  {
    HidJobsInPhases(hid, initial, parsers);
    var pro := ProPass(hid, initial, parsers);
    var nintendo := ContinueWith(pro, Filter(hid, IsOtherNintendo), OtherNintendoJob, parsers);

    var xboxBuffer := Collect(Filter(hid, IsXboxHidRecord));
    var xboxCount := DedupBySerialInPlace(xboxBuffer);
    var xbox := ContinueWith(nintendo, xboxBuffer[..xboxCount], XboxJob, parsers);

    var uniqueBuffer := Collect(hid);
    var uniqueCount := DedupBySerialInPlace(uniqueBuffer);
    r := ContinueWith(xbox, uniqueBuffer[..uniqueCount], PlayStationJob, parsers);
  }

  // ---------------------------------------------------------------------
  // The udev pass

  predicate StartsWith(s: string, prefix: string) {
    |prefix| <= |s| && s[..|prefix|] == prefix
  }

  /** The gip filter: a "gip" or "input" prefix, and not the reserved "gip0.1". */
  predicate ConsideredGip(gip: string): (b: bool)
    ensures b <==> ((|gip| >= 3 && gip[..3] == "gip") || (|gip| >= 5 && gip[..5] == "input")) && gip != "gip0.1"
  {
    (StartsWith(gip, "gip") || StartsWith(gip, "input")) && gip != "gip0.1"
  }

  /** The contents of `seen_gips` after a loop over `devices`: every considered gip. */
  function SeenGips(devices: seq<UdevDevice>): set<string>
    decreases |devices|
  {
    if devices == [] then {}
    else
      var n := |devices| - 1;
      SeenGips(devices[..n]) + if ConsideredGip(devices[n].gip) then {devices[n].gip} else {}
  }

  /** A considered gip is in `seen_gips` exactly when some earlier record carries it. */
  lemma {:induction false} SeenGipsContains(devices: seq<UdevDevice>, gip: string)
    requires ConsideredGip(gip)
    ensures gip in SeenGips(devices) <==> exists j :: 0 <= j < |devices| && devices[j].gip == gip
    decreases |devices|
  {
    if devices != [] {
      var n := |devices| - 1;
      SeenGipsContains(devices[..n], gip);
      assert forall j :: 0 <= j < n ==> devices[..n][j] == devices[j];
      if gip in SeenGips(devices) && gip !in SeenGips(devices[..n]) {
        assert devices[n].gip == gip;
      }
    }
  }

  /** The records the udev loop turns into controllers, in scan order. */
  function UdevSelected(devices: seq<UdevDevice>): seq<UdevDevice>
    decreases |devices|
  {
    if devices == [] then []
    else
      var n := |devices| - 1;
      var d := devices[n];
      UdevSelected(devices[..n]) +
        if ConsideredGip(d.gip) && d.gip !in SeenGips(devices[..n]) && IsXboxController(d.vendorId)
        then [d] else []
  }

  /** No record before position `i` carries the gip of record `i`. */
  predicate FirstWithGip(devices: seq<UdevDevice>, i: nat)
    requires i < |devices|
  {
    forall j :: 0 <= j < i ==> devices[j].gip != devices[i].gip
  }

  /** Record `i` yields a controller: considered gip, first with that gip, Microsoft vendor. */
  predicate SelectedAt(devices: seq<UdevDevice>, i: nat)
    requires i < |devices|
  {
    ConsideredGip(devices[i].gip) && FirstWithGip(devices, i) && devices[i].vendorId == 0x045e
  }

  /** Selection of an earlier record does not depend on the records after it. */
  lemma SelectedAtPrefix(devices: seq<UdevDevice>, n: nat, i: nat)
    requires i < n <= |devices|
    ensures SelectedAt(devices[..n], i) <==> SelectedAt(devices, i)
  {
    assert forall j :: 0 <= j <= i ==> devices[..n][j] == devices[j];
  }

  /** The last record is selected exactly when the loop pushes it. */
  lemma SelectedAtLast(devices: seq<UdevDevice>)
    requires |devices| > 0
    ensures var n := |devices| - 1;
      SelectedAt(devices, n) <==>
        ConsideredGip(devices[n].gip) && devices[n].gip !in SeenGips(devices[..n]) && IsXboxController(devices[n].vendorId)
  {
    var n := |devices| - 1;
    var prefix := devices[..n];
    if ConsideredGip(devices[n].gip) {
      SeenGipsContains(prefix, devices[n].gip);
      assert forall j :: 0 <= j < n ==> prefix[j] == devices[j];
    }
  }

  /**
   * A record yields a controller exactly when its gip is considered, it is
   * the first record of any vendor with that gip, and its vendor is
   * Microsoft's; the controllers keep scan order.
   */
  lemma {:induction false} UdevSelectedExactly(devices: seq<UdevDevice>) returns (idx: seq<nat>)
    ensures Subsequence(devices, UdevSelected(devices), idx)
    ensures forall i :: 0 <= i < |devices| ==> (i in idx <==> SelectedAt(devices, i))
    decreases |devices|
  {
    if devices == [] {
      idx := [];
    } else {
      var pidx := UdevSelectedExactly(devices[..|devices| - 1]);
      idx := UdevSelectedExactlyStep(devices, pidx);
    }
  }

  /** The inductive step of `UdevSelectedExactly`: the last record joins the selection exactly when it is selected. */
  lemma UdevSelectedExactlyStep(devices: seq<UdevDevice>, pidx: seq<nat>) returns (idx: seq<nat>)
    requires |devices| > 0
    requires Subsequence(devices[..|devices| - 1], UdevSelected(devices[..|devices| - 1]), pidx)
    requires forall i :: 0 <= i < |devices| - 1 ==> (i in pidx <==> SelectedAt(devices[..|devices| - 1], i))
    ensures Subsequence(devices, UdevSelected(devices), idx)
    ensures forall i :: 0 <= i < |devices| ==> (i in idx <==> SelectedAt(devices, i))
  {
    var n := |devices| - 1;
    var prefix := devices[..n];
    SelectedAtLast(devices);
    assert UdevSelected(devices) == if SelectedAt(devices, n) then UdevSelected(prefix) + [devices[n]] else UdevSelected(prefix);
    idx := SubsequenceGrow(devices, UdevSelected(prefix), pidx, SelectedAt(devices, n));
    forall i | 0 <= i < |devices|
      ensures i in idx <==> SelectedAt(devices, i)
    {
      if i < n {
        SelectedAtPrefix(devices, n, i);
        assert i in idx <==> i in pidx;
        assert i in pidx <==> SelectedAt(prefix, i);
      } else {
        assert i == n;
        assert n in idx <==> SelectedAt(devices, n);
      }
    }
  }

  /** No two controllers of the udev pass share a gip, and each is a considered Microsoft record. */
  lemma UdevSelectedDistinctGips(devices: seq<UdevDevice>)
    ensures forall a, b :: 0 <= a < b < |UdevSelected(devices)| ==>
              UdevSelected(devices)[a].gip != UdevSelected(devices)[b].gip
    ensures forall a :: 0 <= a < |UdevSelected(devices)| ==>
              UdevSelected(devices)[a].vendorId == 0x045e && ConsideredGip(UdevSelected(devices)[a].gip)
  {
    var idx := UdevSelectedExactly(devices);
    forall a, b | 0 <= a < b < |UdevSelected(devices)|
      ensures UdevSelected(devices)[a].gip != UdevSelected(devices)[b].gip
    {
      assert idx[a] < idx[b];
      assert idx[b] in idx;
    }
    forall a | 0 <= a < |UdevSelected(devices)|
      ensures UdevSelected(devices)[a].vendorId == 0x045e && ConsideredGip(UdevSelected(devices)[a].gip)
    {
      assert idx[a] in idx;
    }
  }

  /** `seen_gips` is filled before the vendor check: a non-Microsoft record hides a later Microsoft one with its gip. */
  lemma ForeignRecordHidesLaterGip(other: UdevDevice, xbox: UdevDevice)
    requires other.vendorId != MS_VENDOR_ID && xbox.vendorId == MS_VENDOR_ID
    requires other.gip == xbox.gip && ConsideredGip(other.gip)
    ensures UdevSelected([other, xbox]) == []
  {
    var both := [other, xbox];
    assert both[..1] == [other];
    assert [other][..0] == [];
    assert UdevSelected([other]) == [];
    assert SeenGips([other]) == {other.gip};
  }

  /** The udev pass builds this controller from this record. */
  ghost predicate BuiltFrom(c: Controller, d: UdevDevice)
    reads c
  {
    && c.vendorId == d.vendorId && c.productId == d.productId && c.gip == d.gip
    && c.name == ControllerName(d.productId)
    && c.capacity == 100 && c.status == Charging
    && !c.isFake
  }

  /**
   * The udev loop: build each record's controller, skip gips that are not
   * considered, mark the gip seen, and keep the first controller of each gip
   * when its vendor is Microsoft, after the USB status defaults.
   */
  method UdevPass(devices: seq<UdevDevice>) returns (controllers: seq<Controller>)
    ensures |controllers| == |UdevSelected(devices)|
    ensures forall k :: 0 <= k < |controllers| ==>
              fresh(controllers[k]) && BuiltFrom(controllers[k], UdevSelected(devices)[k])
    ensures forall a, b :: 0 <= a < b < |controllers| ==> controllers[a].gip != controllers[b].gip
  {
    controllers := [];
    var seenGips: set<string> := {};
    for i := 0 to |devices|
      invariant seenGips == SeenGips(devices[..i])
      invariant |controllers| == |UdevSelected(devices[..i])|
      invariant forall k :: 0 <= k < |controllers| ==>
                  fresh(controllers[k]) && BuiltFrom(controllers[k], UdevSelected(devices[..i])[k])
    {
      UdevStep(devices, i);
      seenGips, controllers := VisitUdevRecord(devices[i], seenGips, controllers);
    }
    assert devices[..|devices|] == devices;
    UdevSelectedDistinctGips(devices);
  }

  /** The body of the udev loop for one record: the gip filter, `seen_gips.insert`, the vendor check and the push. */
  method VisitUdevRecord(d: UdevDevice, seenGips: set<string>, controllers: seq<Controller>)
    returns (seen': set<string>, controllers': seq<Controller>)
    ensures seen' == seenGips + if ConsideredGip(d.gip) then {d.gip} else {}
    ensures var pushed := ConsideredGip(d.gip) && d.gip !in seenGips && IsXboxController(d.vendorId);
      && |controllers'| == |controllers| + (if pushed then 1 else 0)
      && controllers'[..|controllers|] == controllers
      && (pushed ==> fresh(controllers'[|controllers|]) && BuiltFrom(controllers'[|controllers|], d))
  {
    seen', controllers' := seenGips, controllers;
    var controller := new Controller.FromUdev(d, "Unknown Controller", 0, Unknown, false);
    if !ConsideredGip(controller.gip) {
      return;
    }
    var inserted := controller.gip !in seen';
    seen' := seen' + {controller.gip};
    if inserted {
      if IsXboxController(controller.vendorId) {
        UpdateXboxController(controller, false);
        controllers' := controllers' + [controller];
      }
    }
  }

  /** One iteration of the udev loop, on the specification side. */
  lemma UdevStep(devices: seq<UdevDevice>, i: nat)
    requires i < |devices|
    ensures var d := devices[i];
      && SeenGips(devices[..i + 1]) == SeenGips(devices[..i]) + (if ConsideredGip(d.gip) then {d.gip} else {})
      && UdevSelected(devices[..i + 1]) == UdevSelected(devices[..i]) +
           if ConsideredGip(d.gip) && d.gip !in SeenGips(devices[..i]) && IsXboxController(d.vendorId) then [d] else []
  {
    assert devices[..i + 1][..i] == devices[..i];
  }

  // ---------------------------------------------------------------------
  // controllers()

  /** The debug fixture, pushed first when the build is a debug build and the fixture loaded. */
  function FakeControllers<C>(debugBuild: bool, fixture: Option<C>): (r: seq<C>)
    ensures |r| == if debugBuild && fixture.Some? then 1 else 0
    ensures |r| == 1 ==> r[0] == fixture.value
  {
    if debugBuild && fixture.Some? then [fixture.value] else []
  }

  /** The outcome of the HID pass: its list is discarded, but its first error aborts discovery. */
  function HidOutcome<C>(hid: seq<HidDevice>, debugBuild: bool, fixture: Option<C>, parsers: HidParsers<C>): Result<seq<C>, Error> {
    RunJobs(FakeControllers(debugBuild, fixture), HidJobs(hid), parsers)
  }

  /**
   * `controllers()`: open the HID source, run the HID pass, open and scan
   * the udev `input` subsystem, and return the controllers of the udev pass
   * only (the HID list is shadowed by a fresh one before the udev loop).
   */
  method Controllers(
    hidApi: Result<seq<HidDevice>, Error>,
    debugBuild: bool,
    fixture: Option<Controller>,
    parsers: HidParsers<Controller>,
    udev: Result<seq<UdevDevice>, Error>)
    returns (r: Result<seq<Controller>, Error>)
    ensures hidApi.Err? ==> r == Err(hidApi.error)
    ensures hidApi.Ok? && HidOutcome(hidApi.value, debugBuild, fixture, parsers).Err? ==>
              r == Err(HidOutcome(hidApi.value, debugBuild, fixture, parsers).error)
    ensures hidApi.Ok? && HidOutcome(hidApi.value, debugBuild, fixture, parsers).Ok? && udev.Err? ==>
              r == Err(udev.error)
    ensures r.Ok? <==> hidApi.Ok? && HidOutcome(hidApi.value, debugBuild, fixture, parsers).Ok? && udev.Ok?
    ensures r.Ok? ==>
              && |r.value| == |UdevSelected(udev.value)|
              && forall k :: 0 <= k < |r.value| ==>
                   fresh(r.value[k]) && BuiltFrom(r.value[k], UdevSelected(udev.value)[k])
    ensures r.Ok? ==> forall a, b :: 0 <= a < b < |r.value| ==> r.value[a].gip != r.value[b].gip
  {
    if hidApi.Err? {
      return Err(hidApi.error);
    }
    var hidControllers := HidPass(hidApi.value, FakeControllers(debugBuild, fixture), parsers);
    if hidControllers.Err? {
      return Err(hidControllers.error);
    }
    if udev.Err? {
      return Err(udev.error);
    }
    var controllers := UdevPass(udev.value);
    return Ok(controllers);
  }
}
