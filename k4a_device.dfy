/** The device layer of the SDK: the configuration check made before the
    cameras start, the started flags of the depth camera, the colour camera
    and the IMU, and the order in which closing a device tears its modules
    down.

    The modules a device owns (depth, colour, IMU, capture synchronisation,
    calibration, the two microcontrollers, the tick counter and the logger)
    are not modelled; a device holds the set of modules it has, and each
    call into a module is recorded, in order, in `actions`.  A module call
    that can fail becomes an outcome parameter. */
module K4aDevice {
  import opened K4aTypes
  import opened Trace
  import opened Allocator

  /** k4a_device_configuration_t */
  datatype Configuration = Configuration(
    colorFormat: int, colorResolution: int, depthMode: int, cameraFps: int,
    synchronizedImagesOnly: bool, depthDelayOffColorUsec: int, wiredSyncMode: int,
    subordinateDelayOffMasterUsec: nat, disableStreamingIndicator: bool)

  /** One row of the supported depth table: a mode and its highest rate. */
  datatype DepthEntry = DepthEntry(mode: int, maxFps: int)
  /** One row of the supported colour table: resolution, format, highest rate. */
  datatype ColorEntry = ColorEntry(resolution: int, format: int, maxFps: int)

  const SupportedDepthConfigs: seq<DepthEntry> := [
    DepthEntry(DepthNfov2x2Binned, Fps30),
    DepthEntry(DepthNfovUnbinned, Fps30),
    DepthEntry(DepthWfov2x2Binned, Fps30),
    DepthEntry(DepthWfovUnbinned, Fps15),
    DepthEntry(DepthPassiveIr, Fps30)
  ]

  const SupportedColorConfigs: seq<ColorEntry> := [
    ColorEntry(Resolution2160p, FormatColorMjpg, Fps30),
    ColorEntry(Resolution1440p, FormatColorMjpg, Fps30),
    ColorEntry(Resolution1080p, FormatColorMjpg, Fps30),
    ColorEntry(Resolution720p, FormatColorMjpg, Fps30),
    ColorEntry(Resolution720p, FormatColorYuy2, Fps30),
    ColorEntry(Resolution720p, FormatColorNv12, Fps30),
    ColorEntry(Resolution3072p, FormatColorMjpg, Fps15),
    ColorEntry(Resolution1536p, FormatColorMjpg, Fps30),
    ColorEntry(Resolution2160p, FormatColorBgra32, Fps30),
    ColorEntry(Resolution1440p, FormatColorBgra32, Fps30),
    ColorEntry(Resolution1080p, FormatColorBgra32, Fps30),
    ColorEntry(Resolution720p, FormatColorBgra32, Fps30),
    ColorEntry(Resolution3072p, FormatColorBgra32, Fps15),
    ColorEntry(Resolution1536p, FormatColorBgra32, Fps30)
  ]

  /** The depth table scan: some row has the mode and a rate at least the requested one. */
  predicate DepthSupported(mode: int, fps: int)
  {
    exists i :: 0 <= i < |SupportedDepthConfigs| &&
      SupportedDepthConfigs[i].mode == mode && SupportedDepthConfigs[i].maxFps >= fps
  }

  /** The colour table scan. */
  predicate ColorSupported(resolution: int, format: int, fps: int)
  {
    exists i :: 0 <= i < |SupportedColorConfigs| &&
      SupportedColorConfigs[i].resolution == resolution && SupportedColorConfigs[i].maxFps >= fps &&
      SupportedColorConfigs[i].format == format
  }

  /** The state of the external sync jacks, or None when the query fails. */
  datatype SyncJack = SyncJack(syncInPresent: bool, syncOutPresent: bool)

  /** The frame period, in microseconds, of a valid rate. */
  function FramePeriodUsec(fps: int): (period: nat)
    requires fps in {Fps5, Fps15, Fps30}
    ensures fps == Fps5 ==> period == 200000
    ensures fps == Fps15 ==> period == 66666
    ensures fps == Fps30 ==> period == 33333
  {
    1000000 / FpsToUint(fps)
  }

  /** validate_configuration, step by step as the code checks: the enum
      ranges, the sync cables, the subordinate delay, the depth-to-colour
      delay, then the two tables.  `jack` is the sync-jack query's answer,
      asked only in MASTER and SUBORDINATE modes. */
  function ValidateConfiguration(config: Configuration, jack: Option<SyncJack>): (r: K4aResult)
    ensures r == Succeeded ==> config.colorFormat in {FormatColorMjpg, FormatColorYuy2, FormatColorNv12, FormatColorBgra32}
    ensures r == Succeeded ==> ResolutionOff <= config.colorResolution <= Resolution3072p
    ensures r == Succeeded ==> DepthOff <= config.depthMode <= DepthPassiveIr
    ensures r == Succeeded ==> config.cameraFps in {Fps5, Fps15, Fps30}
    ensures r == Succeeded ==> SyncStandalone <= config.wiredSyncMode <= SyncSubordinate
  {
    var c := config;
    if !(c.colorFormat == FormatColorMjpg || c.colorFormat == FormatColorYuy2 ||
         c.colorFormat == FormatColorNv12 || c.colorFormat == FormatColorBgra32) then Failed
    else if !(ResolutionOff <= c.colorResolution <= Resolution3072p) then Failed
    else if !(DepthOff <= c.depthMode <= DepthPassiveIr) then Failed
    else if !(c.cameraFps == Fps5 || c.cameraFps == Fps15 || c.cameraFps == Fps30) then Failed
    else if !(SyncStandalone <= c.wiredSyncMode <= SyncSubordinate) then Failed
    else if (c.wiredSyncMode == SyncSubordinate || c.wiredSyncMode == SyncMaster) &&
            (jack.None? ||
             (c.wiredSyncMode == SyncSubordinate && !jack.value.syncInPresent) ||
             (c.wiredSyncMode == SyncMaster && !jack.value.syncOutPresent)) then Failed
    else if c.subordinateDelayOffMasterUsec != 0 &&
            (c.wiredSyncMode != SyncSubordinate || c.subordinateDelayOffMasterUsec >= FramePeriodUsec(c.cameraFps)) then Failed
    else
      var depthEnabled := c.depthMode != DepthOff;
      var colorEnabled := c.colorResolution != ResolutionOff;
      var period: int := FramePeriodUsec(c.cameraFps);
      if depthEnabled && colorEnabled && !(-period <= c.depthDelayOffColorUsec <= period) then Failed
      else if !(depthEnabled && colorEnabled) && (c.depthDelayOffColorUsec != 0 || c.synchronizedImagesOnly) then Failed
      else if depthEnabled && !DepthSupported(c.depthMode, c.cameraFps) then Failed
      else if colorEnabled && !ColorSupported(c.colorResolution, c.colorFormat, c.cameraFps) then Failed
      else Succeeded
  }

  /** The rules the configuration check enforces, stated as one conjunction
      rather than as the sequence of checks. */
  predicate ConfigurationSupported(c: Configuration, jack: Option<SyncJack>)
  {
    && c.colorFormat in {FormatColorMjpg, FormatColorYuy2, FormatColorNv12, FormatColorBgra32}
    && ResolutionOff <= c.colorResolution <= Resolution3072p
    && DepthOff <= c.depthMode <= DepthPassiveIr
    && c.cameraFps in {Fps5, Fps15, Fps30}
    && SyncStandalone <= c.wiredSyncMode <= SyncSubordinate
    // a subordinate needs the sync-in cable, a master the sync-out cable
    && (c.wiredSyncMode == SyncSubordinate ==> jack.Some? && jack.value.syncInPresent)
    && (c.wiredSyncMode == SyncMaster ==> jack.Some? && jack.value.syncOutPresent)
    // only a subordinate may be delayed off the master, by less than a frame
    && (c.subordinateDelayOffMasterUsec != 0 ==>
          c.wiredSyncMode == SyncSubordinate && c.subordinateDelayOffMasterUsec < FramePeriodUsec(c.cameraFps))
    // the depth-to-colour delay is within a frame when both run, and
    // neither a delay nor synchronised-only captures otherwise
    && (c.depthMode != DepthOff && c.colorResolution != ResolutionOff ==>
          -(FramePeriodUsec(c.cameraFps) as int) <= c.depthDelayOffColorUsec <= FramePeriodUsec(c.cameraFps))
    && (c.depthMode == DepthOff || c.colorResolution == ResolutionOff ==>
          c.depthDelayOffColorUsec == 0 && !c.synchronizedImagesOnly)
    && (c.depthMode != DepthOff ==> DepthSupported(c.depthMode, c.cameraFps))
    && (c.colorResolution != ResolutionOff ==> ColorSupported(c.colorResolution, c.colorFormat, c.cameraFps))
  }

  /** The check accepts exactly the configurations the rules allow. */
  lemma ValidateConfigurationMeansSupported(config: Configuration, jack: Option<SyncJack>)
    ensures ValidateConfiguration(config, jack) == Succeeded <==> ConfigurationSupported(config, jack)
  {
  }

  /** The tables in effect: the wide unbinned depth mode and the 3072p
      colour resolution run at 15 fps at most, and YUY2 and NV12 exist only
      at 720p. */
  lemma TableLimits(c: Configuration, jack: Option<SyncJack>)
    ensures c.depthMode == DepthWfovUnbinned && c.cameraFps == Fps30 ==> ValidateConfiguration(c, jack) == Failed
    ensures c.colorResolution == Resolution3072p && c.cameraFps == Fps30 ==> ValidateConfiguration(c, jack) == Failed
    ensures (c.colorResolution != ResolutionOff && c.colorResolution != Resolution720p &&
             (c.colorFormat == FormatColorYuy2 || c.colorFormat == FormatColorNv12)) ==> ValidateConfiguration(c, jack) == Failed
  {
    if c.depthMode == DepthWfovUnbinned && c.cameraFps == Fps30 {
      assert !DepthSupported(c.depthMode, c.cameraFps);
    }
    if c.colorResolution == Resolution3072p && c.cameraFps == Fps30 {
      assert !ColorSupported(c.colorResolution, c.colorFormat, c.cameraFps);
    }
    if c.colorResolution != ResolutionOff && c.colorResolution != Resolution720p &&
       (c.colorFormat == FormatColorYuy2 || c.colorFormat == FormatColorNv12) {
      assert !ColorSupported(c.colorResolution, c.colorFormat, c.cameraFps);
    }
  }

  /** K4A_DEVICE_CONFIG_INIT_DISABLE_ALL with 30 fps, and colour 720p BGRA32
      with NFOV unbinned depth at 30 fps, both standalone, pass the check. */
  lemma CommonConfigurationsPass(jack: Option<SyncJack>)
    ensures ValidateConfiguration(Configuration(FormatColorMjpg, ResolutionOff, DepthOff, Fps30, false, 0,
                                                SyncStandalone, 0, false), jack) == Succeeded
    ensures ValidateConfiguration(Configuration(FormatColorBgra32, Resolution720p, DepthNfovUnbinned, Fps30, true, 0,
                                                SyncStandalone, 0, false), jack) == Succeeded
  {
    assert DepthSupported(DepthNfovUnbinned, Fps30) by { assert SupportedDepthConfigs[1] == DepthEntry(DepthNfovUnbinned, Fps30); }
    assert ColorSupported(Resolution720p, FormatColorBgra32, Fps30) by {
      assert SupportedColorConfigs[11] == ColorEntry(Resolution720p, FormatColorBgra32, Fps30);
    }
  }

  /** The modules a device owns. */
  datatype Module = Logger | TickCounter | DepthMcu | ColorMcu | Calibration | CaptureSync | Depth | Color | Imu

  /** A call into a module. */
  datatype DeviceAction = Configure(m: Module) | StartModule(m: Module) | StopModule(m: Module) | Destroy(m: Module)

  /** The calls a successful k4a_device_start_cameras makes, in order: the
      colour MCU's multi-device mode, capture synchronisation, then the depth
      and colour cameras that the configuration turns on. */
  function StartSequence(config: Configuration): (s: seq<DeviceAction>)
    ensures |s| >= 2 && s[..2] == [Configure(ColorMcu), StartModule(CaptureSync)]
    ensures StartModule(Depth) in s <==> config.depthMode != DepthOff
    ensures StartModule(Color) in s <==> config.colorResolution != ResolutionOff
    ensures config.depthMode != DepthOff && config.colorResolution != ResolutionOff ==> s[2] == StartModule(Depth)
  {
    [Configure(ColorMcu), StartModule(CaptureSync)] +
    (if config.depthMode != DepthOff then [StartModule(Depth)] else []) +
    (if config.colorResolution != ResolutionOff then [StartModule(Color)] else [])
  }

  /** The modules k4a_device_close destroys and nulls, in its order: the
      reverse of creation, except that capture synchronisation goes after
      depth and colour, which call into it. */
  const TeardownOrder: seq<Module> := [Imu, Color, Depth, CaptureSync, Calibration, DepthMcu, ColorMcu, TickCounter]

  /** The elements of `order` that are in `present`, in order. */
  function Present(order: seq<Module>, present: set<Module>): seq<Module>
  {
    if |order| == 0 then []
    else (if order[0] in present then [order[0]] else []) + Present(order[1..], present)
  }

  function Destroys(ms: seq<Module>): (r: seq<DeviceAction>)
    ensures |r| == |ms|
    ensures forall i :: 0 <= i < |ms| ==> r[i] == Destroy(ms[i])
  {
    seq(|ms|, i requires 0 <= i < |ms| => Destroy(ms[i]))
  }

  /** What k4a_device_close does to the modules present: stop capture
      synchronisation, then destroy each present module in teardown order,
      then the logger. */
  function CloseActions(present: set<Module>): seq<DeviceAction>
  {
    (if CaptureSync in present then [StopModule(CaptureSync)] else []) +
    Destroys(Present(TeardownOrder, present)) +
    (if Logger in present then [Destroy(Logger)] else [])
  }

  predicate NoDuplicates<T(==)>(s: seq<T>)
  {
    forall i, j :: 0 <= i < j < |s| ==> s[i] != s[j]
  }

  /** Filtering keeps exactly the present elements of the order. */
  lemma {:induction false} PresentMembers(order: seq<Module>, present: set<Module>, m: Module)
    ensures m in Present(order, present) <==> m in order && m in present
    decreases |order|
  {
    if |order| != 0 {
      PresentMembers(order[1..], present, m);
      assert m in order <==> m == order[0] || m in order[1..];
    }
  }

  /** Filtering an order without duplicates gives one without duplicates. */
  lemma {:induction false} PresentNoDuplicates(order: seq<Module>, present: set<Module>)
    requires NoDuplicates(order)
    ensures NoDuplicates(Present(order, present))
    decreases |order|
  {
    if |order| != 0 {
      var rest := Present(order[1..], present);
      PresentNoDuplicates(order[1..], present);
      PresentMembers(order[1..], present, order[0]);
      var r := Present(order, present);
      if order[0] in present {
        assert r == [order[0]] + rest;
        forall i, j | 0 <= i < j < |r|
          ensures r[i] != r[j]
        {
          if i == 0 {
            assert r[j] == rest[j - 1] && r[j] in rest;
          } else {
            assert r[i] == rest[i - 1] && r[j] == rest[j - 1];
          }
        }
      } else {
        assert r == rest;
      }
    }
  }

  /** Filtering one element more of the order adds that element when it is present. */
  lemma {:induction false} PresentSnoc(order: seq<Module>, k: nat, present: set<Module>)
    requires k < |order|
    ensures Present(order[..k + 1], present) ==
              Present(order[..k], present) + (if order[k] in present then [order[k]] else [])
    decreases k
  {
    var o := order[..k + 1];
    assert o[1..] == order[1..][..k];
    if k == 0 {
      assert Present(o[1..], present) == [];
    } else {
      PresentSnoc(order[1..], k - 1, present);
      assert order[..k][1..] == order[1..][..k - 1];
    }
  }

  /** `a` comes before `b` in `s`. */
  predicate Before<T(==)>(s: seq<T>, a: T, b: T)
  {
    exists i, j :: 0 <= i < j < |s| && s[i] == a && s[j] == b
  }

  /** Putting elements in front of a sequence keeps the order within it. */
  lemma BeforeAfterPrefix<T>(h: seq<T>, rest: seq<T>, a: T, b: T)
    requires Before(rest, a, b)
    ensures Before(h + rest, a, b)
  {
    var i, j :| 0 <= i < j < |rest| && rest[i] == a && rest[j] == b;
    var r := h + rest;
    assert r[|h| + i] == a && r[|h| + j] == b;
  }

  /** An element put in front of a sequence comes before everything in it. */
  lemma BeforeFromHead<T>(a: T, rest: seq<T>, k: nat)
    requires k < |rest|
    ensures Before([a] + rest, a, rest[k])
  {
    var r := [a] + rest;
    assert r[0] == a && r[k + 1] == rest[k];
  }

  /** Filtering keeps the relative order of the elements it keeps. */
  lemma {:induction false} PresentKeepsOrder(order: seq<Module>, present: set<Module>, a: Module, b: Module)
    requires Before(order, a, b) && a in present && b in present
    ensures Before(Present(order, present), a, b)
    decreases |order|
  {
    var i, j :| 0 <= i < j < |order| && order[i] == a && order[j] == b;
    var rest := Present(order[1..], present);
    var h := if order[0] in present then [order[0]] else [];
    assert Present(order, present) == h + rest;
    if i == 0 {
      assert order[1..][j - 1] == b;
      PresentMembers(order[1..], present, b);
      var k :| 0 <= k < |rest| && rest[k] == b;
      BeforeFromHead(a, rest, k);
    } else {
      assert order[1..][i - 1] == a && order[1..][j - 1] == b;
      PresentKeepsOrder(order[1..], present, a, b);
      BeforeAfterPrefix(h, rest, a, b);
    }
  }

  /** Closing a device destroys exactly the modules present, and stops
      capture synchronisation before anything is destroyed. */
  lemma CloseDestroysPresentModules(present: set<Module>)
    ensures forall m :: m in present <==> Destroy(m) in CloseActions(present)
    ensures CaptureSync in present ==> CloseActions(present)[0] == StopModule(CaptureSync)
  {
    var p := Present(TeardownOrder, present);
    var a := CloseActions(present);
    var s := if CaptureSync in present then [StopModule(CaptureSync)] else [];
    var l := if Logger in present then [Destroy(Logger)] else [];
    assert a == s + Destroys(p) + l;
    forall m
      ensures m in present <==> Destroy(m) in a
    {
      PresentMembers(TeardownOrder, present, m);
      if m in present && m != Logger {
        assert m in TeardownOrder;
        var k :| 0 <= k < |p| && p[k] == m;
        assert a[|s| + k] == Destroy(m);
      }
      if Destroy(m) in a {
        var k :| 0 <= k < |a| && a[k] == Destroy(m);
        if k >= |s| && k < |s| + |p| {
          assert a[k] == Destroys(p)[k - |s|];
          assert p[k - |s|] == m;
        }
      }
    }
  }

  /** Closing a device makes no call twice: each module is destroyed once. */
  lemma CloseReleasesEachModuleOnce(present: set<Module>)
    ensures NoDuplicates(CloseActions(present))
  {
    var p := Present(TeardownOrder, present);
    var a := CloseActions(present);
    var s := if CaptureSync in present then [StopModule(CaptureSync)] else [];
    var l := if Logger in present then [Destroy(Logger)] else [];
    assert a == s + Destroys(p) + l;
    assert NoDuplicates(TeardownOrder);
    PresentNoDuplicates(TeardownOrder, present);
    PresentMembers(TeardownOrder, present, Logger);
    forall i, j | 0 <= i < j < |a|
      ensures a[i] != a[j]
    {
      if |s| <= i < |s| + |p| && |s| <= j < |s| + |p| {
        assert a[i] == Destroy(p[i - |s|]) && a[j] == Destroy(p[j - |s|]);
      } else if |s| <= i < |s| + |p| && j >= |s| + |p| {
        assert a[i] == Destroy(p[i - |s|]) && p[i - |s|] in p;
      }
    }
  }

  /** The dependencies the teardown order respects: depth and colour are
      destroyed before capture synchronisation, which they call into, and
      calibration before the depth microcontroller it relies on. */
  lemma CloseOrderRespectsDependencies(present: set<Module>)
    ensures Depth in present && CaptureSync in present ==> Before(Present(TeardownOrder, present), Depth, CaptureSync)
    ensures Color in present && CaptureSync in present ==> Before(Present(TeardownOrder, present), Color, CaptureSync)
    ensures Calibration in present && DepthMcu in present ==> Before(Present(TeardownOrder, present), Calibration, DepthMcu)
  {
    if Depth in present && CaptureSync in present {
      assert TeardownOrder[2] == Depth && TeardownOrder[3] == CaptureSync;
      PresentKeepsOrder(TeardownOrder, present, Depth, CaptureSync);
    }
    if Color in present && CaptureSync in present {
      assert TeardownOrder[1] == Color && TeardownOrder[3] == CaptureSync;
      PresentKeepsOrder(TeardownOrder, present, Color, CaptureSync);
    }
    if Calibration in present && DepthMcu in present {
      assert TeardownOrder[4] == Calibration && TeardownOrder[5] == DepthMcu;
      PresentKeepsOrder(TeardownOrder, present, Calibration, DepthMcu);
    }
  }

  /** Everything k4a_device_open creates. */
  const AllModules: set<Module> := {Logger, TickCounter, DepthMcu, ColorMcu, Calibration, CaptureSync, Depth, Color, Imu}

  /** The outcomes of the module calls k4a_device_start_cameras makes. */
  datatype StartOutcomes = StartOutcomes(
    jack: Option<SyncJack>, multiDeviceOk: bool, captureSyncOk: bool, depthOk: bool, colorOk: bool)

  class Device {
    var present: set<Module>
    var depthStarted: bool
    var colorStarted: bool
    var imuStarted: bool
    var actions: seq<DeviceAction>
    var closed: bool
    const alloc: Allocator

    ghost predicate Valid()
      reads this, alloc
    {
      alloc.Valid()
    }

    /** The device k4a_device_open leaves behind: the allocator session it
        opened and the modules it created (all of them on success; those
        created before the failing step otherwise). */
    constructor (alloc: Allocator, created: set<Module>)
      requires alloc.Valid()
      modifies alloc
      ensures Valid() && this.alloc == alloc
      ensures alloc.sessions == old(alloc.sessions) + 1 && alloc.counts == old(alloc.counts)
      ensures present == created && !depthStarted && !colorStarted && !imuStarted
      ensures actions == [] && !closed
    {
      this.alloc := alloc;
      present := created;
      depthStarted, colorStarted, imuStarted := false, false, false;
      actions, closed := [], false;
      new;
      alloc.Initialize();
    }

    /** k4a_device_stop_cameras: stop capture synchronisation first, then
        depth and colour, each only when the module exists; a stopped
        camera's flag is cleared. */
    method StopCameras()
      modifies this`depthStarted, this`colorStarted, this`actions
      ensures actions == old(actions) + (if CaptureSync in present then [StopModule(CaptureSync)] else []) +
                (if Depth in present then [StopModule(Depth)] else []) +
                (if Color in present then [StopModule(Color)] else [])
      ensures depthStarted == (old(depthStarted) && Depth !in present)
      ensures colorStarted == (old(colorStarted) && Color !in present)
    {
      if CaptureSync in present {
        actions := actions + [StopModule(CaptureSync)];
      }
      if Depth in present {
        actions := actions + [StopModule(Depth)];
        depthStarted := false;
      }
      if Color in present {
        actions := actions + [StopModule(Color)];
        colorStarted := false;
      }
    }

    /** The start calls of k4a_device_start_cameras once the checks have
        passed: each is made only while the previous ones succeeded; a
        camera's flag is set once it is started or is off. */
    method StartModules(config: Configuration, out: StartOutcomes) returns (result: K4aResult)
      requires !depthStarted && !colorStarted
      modifies this`depthStarted, this`colorStarted, this`actions
      ensures result == Succeeded <==>
                out.multiDeviceOk && out.captureSyncOk &&
                (config.depthMode != DepthOff ==> out.depthOk) &&
                (config.colorResolution != ResolutionOff ==> out.colorOk)
      ensures result == Succeeded ==> depthStarted && colorStarted && actions == old(actions) + StartSequence(config)
      ensures result == Failed ==>
                |actions| >= |old(actions)| && actions[..|old(actions)|] == old(actions) &&
                actions[|old(actions)|..] <= StartSequence(config)
    {
      ghost var calls := StartSequence(config);
      actions := actions + [Configure(ColorMcu)];
      result := ResultFromBool(out.multiDeviceOk);
      if result == Succeeded {
        actions := actions + [StartModule(CaptureSync)];
        result := ResultFromBool(out.captureSyncOk);
      }
      assert actions[|old(actions)|..] <= calls[..2];
      if result == Succeeded {
        if config.depthMode != DepthOff {
          actions := actions + [StartModule(Depth)];
          result := ResultFromBool(out.depthOk);
        }
        if result == Succeeded {
          depthStarted := true;
        }
      }
      if result == Succeeded {
        if config.colorResolution != ResolutionOff {
          actions := actions + [StartModule(Color)];
          result := ResultFromBool(out.colorOk);
        }
        if result == Succeeded {
          colorStarted := true;
        }
      }
    }

    /** k4a_device_start_cameras.  It refuses to start while a camera or the
        IMU runs, checks the configuration, configures the colour
        microcontroller, starts capture synchronisation, then depth and
        colour (each only when enabled, but its flag is set either way).
        Any failure, including the refusal, stops the cameras. */
    method StartCameras(config: Configuration, out: StartOutcomes) returns (result: K4aResult)
      requires present == AllModules
      modifies this`depthStarted, this`colorStarted, this`actions
      ensures imuStarted == old(imuStarted)
      ensures var idle := !old(depthStarted) && !old(colorStarted) && !old(imuStarted);
              var valid := ValidateConfiguration(config, out.jack) == Succeeded;
              result == Succeeded <==>
                idle && valid && out.multiDeviceOk && out.captureSyncOk &&
                (config.depthMode != DepthOff ==> out.depthOk) &&
                (config.colorResolution != ResolutionOff ==> out.colorOk)
      // on success both camera flags are set, even for a camera that is off,
      // and every start call was made, in order
      ensures result == Succeeded ==> depthStarted && colorStarted
      ensures result == Succeeded ==> actions == old(actions) + StartSequence(config)
      // a failed start made a prefix of those calls, then stopped the cameras
      ensures result == Failed ==>
                && |actions| >= |old(actions)| + 3 && actions[..|old(actions)|] == old(actions)
                && actions[|old(actions)|..|actions| - 3] <= StartSequence(config)
      // on failure the cameras are stopped: both flags are clear
      ensures result == Failed ==> !depthStarted && !colorStarted
      ensures result == Failed ==>
                |actions| >= 3 && actions[|actions| - 3..] == [StopModule(CaptureSync), StopModule(Depth), StopModule(Color)]
      // a refused start makes no call but the stop
      ensures old(depthStarted) || old(colorStarted) || old(imuStarted) ==>
                actions == old(actions) + [StopModule(CaptureSync), StopModule(Depth), StopModule(Color)]
    {
      result := Succeeded;
      if depthStarted || colorStarted {
        // a sensor is running
        result := Failed;
      }
      if imuStarted {
        // the colour camera resets the IMU time stamps
        result := Failed;
      }
      if result == Succeeded {
        result := TraceError(ValidateConfiguration(config, out.jack)).result;
      }
      if result == Succeeded {
        result := StartModules(config, out);
      }
      if result == Failed {
        StopCameras();
      }
    }

    /** k4a_device_stop_imu: stop the IMU and clear its flag when it exists. */
    method StopImu()
      modifies this`imuStarted, this`actions
      ensures Imu in present ==> !imuStarted && actions == old(actions) + [StopModule(Imu)]
      ensures Imu !in present ==> imuStarted == old(imuStarted) && actions == old(actions)
    {
      if Imu in present {
        actions := actions + [StopModule(Imu)];
        imuStarted := false;
      }
    }

    /** k4a_device_start_imu: refused while the IMU runs or while neither
        camera runs (the colour camera resets the IMU time stamps); the flag
        is set only when the IMU starts. */
    method StartImu(imuStartOk: bool) returns (result: K4aResult)
      modifies this`imuStarted, this`actions
      ensures result == Succeeded <==> !old(imuStarted) && (depthStarted || colorStarted) && imuStartOk
      ensures imuStarted <==> old(imuStarted) || result == Succeeded
      ensures old(imuStarted) || (!depthStarted && !colorStarted) ==> actions == old(actions)
      ensures !old(imuStarted) && (depthStarted || colorStarted) ==> actions == old(actions) + [StartModule(Imu)]
    {
      var early := ReturnValueIfArg(Failed, imuStarted);
      if early.Some? {
        return early.value;
      }
      result := Succeeded;
      if !depthStarted && !colorStarted {
        result := Failed;
      }
      if result == Succeeded {
        actions := actions + [StartModule(Imu)];
        result := ResultFromBool(imuStartOk);
      }
      if result == Succeeded {
        imuStarted := true;
      }
      // The code stops the IMU here when the start failed with the flag
      // set; the flag is set only on success, so that never happens.
    }

    /** k4a_device_close: stop capture synchronisation, destroy and null
        every present module in teardown order, destroy the logger, and end
        the allocator session.  `leaked` is what the closing leak check
        sees (the code asserts it is zero). */
    method Close() returns (leaked: int)
      requires Valid() && !closed
      modifies this, alloc
      ensures Valid() && closed
      ensures actions == old(actions) + CloseActions(old(present))
      // every module but the logger is nulled
      ensures forall m :: m in present <==> m == Logger && Logger in old(present)
      ensures alloc.sessions == old(alloc.sessions) - 1 && alloc.counts == old(alloc.counts)
      ensures leaked == LeakCount(alloc.counts, alloc.sessions)
    {
      if CaptureSync in present {
        // stop capturesync first so that imu, depth, and color can destroy cleanly
        actions := actions + [StopModule(CaptureSync)];
      }
      TearDownModules();
      if Logger in present {
        actions := actions + [Destroy(Logger)];
      }
      closed := true;
      alloc.Deinitialize();
      leaked := alloc.TestForLeaks();
    }

    /** The destroy-and-null blocks of k4a_device_close, one per module in
        teardown order, each destroying its module only when the device has
        it and then nulling it; written here as a walk over the order. */
    method TearDownModules()
      modifies this`present, this`actions
      ensures actions == old(actions) + Destroys(Present(TeardownOrder, old(present)))
      ensures forall m :: m in present <==> m in old(present) && m !in TeardownOrder
    {
      ghost var p := present;
      ghost var a := actions;
      var k := 0;
      while k < |TeardownOrder|
        invariant 0 <= k <= |TeardownOrder|
        invariant actions == a + Destroys(Present(TeardownOrder[..k], p))
        invariant forall m :: m in present <==> m in p && m !in TeardownOrder[..k]
      {
        var m := TeardownOrder[k];
        PresentSnoc(TeardownOrder, k, p);
        assert m in present <==> m in p by {
          assert NoDuplicates(TeardownOrder);
          assert m !in TeardownOrder[..k];
        }
        if m in present {
          actions := actions + [Destroy(m)];
          present := present - {m};
        }
        assert TeardownOrder[..k + 1] == TeardownOrder[..k] + [m];
        k := k + 1;
      }
      assert TeardownOrder[..k] == TeardownOrder;
    }
  }
}
