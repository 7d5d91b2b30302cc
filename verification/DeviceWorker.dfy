/**
 utisDeviceWorker: the list of devices on line and the timer-driven polling rounds.

 Devices of the same category exclude each other.  That exclusion bounds a round to four ticks, and it is also what
 makes the index loop of slotDelDev correct.
 */
module DeviceWorker {
  import opened Options

  datatype DevType = MWS600 | RD3000B | RD3000C | VD920G | VD930A | DevTypeError

  datatype Category = WeatherStation | RoadSurface | Visibility | CategoryError

  function TypeOf(name: string): DevType {
    if name == "MWS600" then MWS600
    else if name == "RD3000B" then RD3000B
    else if name == "RD3000C" then RD3000C
    else if name == "VD920G" then VD920G
    else if name == "VD930A" then VD930A
    else DevTypeError
  }

  function CategoryOf(t: DevType): Category {
    match t
    case MWS600 => WeatherStation
    case RD3000B => RoadSurface
    case RD3000C => RoadSurface
    case VD920G => Visibility
    case VD930A => Visibility
    case DevTypeError => CategoryError
  }

  /** The query sent to a device; the RD3000B is sent the one of the MWS600. */
  function CmdOf(t: DevType): string {
    match t
    case MWS600 => ":014400BB\r\n"
    case RD3000B => ":014400BB\r\n"
    case RD3000C => "SCAN 02\r\n"
    case VD920G => "DRAW 03\r\n"
    case VD930A => "DRAW 03\r\n"
    case DevTypeError => "-1"
  }

  predicate IsValid(name: string) {
    TypeOf(name) != DevTypeError
  }

  // ---------- the device list ----------

  predicate Excludes(a: string, b: string) {
    TypeOf(a) == TypeOf(b) || CategoryOf(TypeOf(a)) == CategoryOf(TypeOf(b))
  }

  /** All devices are of known types and no two share a category. */
  ghost predicate Exclusive(online: seq<string>) {
    && (forall i :: 0 <= i < |online| ==> IsValid(online[i]))
    && (forall i, j :: 0 <= i < j < |online| ==> CategoryOf(TypeOf(online[i])) != CategoryOf(TypeOf(online[j])))
  }

  ghost predicate Allowed(online: seq<string>, name: string) {
    forall i :: 0 <= i < |online| ==> !Excludes(online[i], name)
  }

  /** The devices there are, and which of them exclude each other: itself, and the other one of its kind. */
  lemma KnownDevices(a: string, b: string)
    ensures IsValid(a) <==> a == "MWS600" || a == "RD3000B" || a == "RD3000C" || a == "VD920G" || a == "VD930A"
    ensures IsValid(a) && IsValid(b) ==>
              (Excludes(a, b) <==>
                 a == b || (a == "RD3000B" && b == "RD3000C") || (a == "RD3000C" && b == "RD3000B")
                 || (a == "VD920G" && b == "VD930A") || (a == "VD930A" && b == "VD920G"))
  {
  }

  /** The list after a request to add a device. */
  ghost function Added(online: seq<string>, name: string): seq<string> {
    if IsValid(name) && Allowed(online, name) then online + [name] else online
  }

  /** The list after a request to remove one. */
  function Deleted(online: seq<string>, name: string): seq<string> {
    if IsValid(name) then SteppedWithout(online, name) else online
  }

  function Without(online: seq<string>, name: string): seq<string> {
    if online == [] then []
    else if online[0] == name then Without(online[1..], name)
    else [online[0]] + Without(online[1..], name)
  }

  /** What the index loop of slotDelDev does: it steps over the device that moves into the place of a removed one. */
  function SteppedWithout(online: seq<string>, name: string): seq<string> {
    if online == [] then []
    else if online[0] != name then [online[0]] + SteppedWithout(online[1..], name)
    else if |online| == 1 then []
    else [online[1]] + SteppedWithout(online[2..], name)
  }

  /** The same loop, as it runs from index i on. */
  function LoopFrom(online: seq<string>, i: nat, name: string): seq<string>
    decreases |online| - i
  {
    if i >= |online| then online
    else if online[i] == name then LoopFrom(online[..i] + online[i + 1..], i + 1, name)
    else LoopFrom(online, i + 1, name)
  }

  lemma {:induction false} LoopStepsOver(online: seq<string>, i: nat, name: string)
    requires i <= |online|
    ensures LoopFrom(online, i, name) == online[..i] + SteppedWithout(online[i..], name)
    decreases |online| - i
  {
    if i < |online| {
      var rest := online[i..];
      if online[i] != name {
        LoopStepsOver(online, i + 1, name);
        assert rest[1..] == online[i + 1..] && online[..i + 1] == online[..i] + [rest[0]];
      } else if i + 1 == |online| {
        assert online[..i] + online[i + 1..] == online[..i];
      } else {
        var next := online[..i] + online[i + 1..];
        LoopStepsOver(next, i + 1, name);
        assert next[i + 1..] == rest[2..] && next[..i + 1] == online[..i] + [rest[1]];
      }
    }
  }

  /** Two neighbours that are both to be removed. */
  ghost predicate Neighbours(online: seq<string>, name: string) {
    exists i :: 0 <= i < |online| - 1 && online[i] == name && online[i + 1] == name
  }

  lemma {:induction false} WithoutLacks(online: seq<string>, name: string)
    ensures name !in Without(online, name)
    ensures forall x :: x in Without(online, name) <==> x in online && x != name
  {
    if online != [] {
      WithoutLacks(online[1..], name);
      assert online == [online[0]] + online[1..];
    }
  }

  /** The loop removes every matching device exactly when no two matching ones are neighbours. */
  lemma {:induction false} LoopRemovesAllExactly(online: seq<string>, name: string)
    ensures SteppedWithout(online, name) == Without(online, name) <==> !Neighbours(online, name)
    decreases |online|
  {
    if online == [] {
    } else if online[0] != name {
      var rest := online[1..];
      LoopRemovesAllExactly(rest, name);
      ConsInjective(online[0], SteppedWithout(rest, name), Without(rest, name));
      if Neighbours(rest, name) {
        var i :| 0 <= i < |rest| - 1 && rest[i] == name && rest[i + 1] == name;
        assert online[i + 1] == name && online[i + 2] == name;
      }
      if Neighbours(online, name) {
        var i :| 0 <= i < |online| - 1 && online[i] == name && online[i + 1] == name;
        assert rest[i - 1] == name && rest[i] == name;
      }
    } else if |online| == 1 {
    } else if online[1] == name {
      assert online[0] == name && online[0 + 1] == name;
      WithoutLacks(online, name);
      assert SteppedWithout(online, name)[0] == name;
    } else {
      var rest := online[2..];
      LoopRemovesAllExactly(rest, name);
      assert online[1..][1..] == rest;
      ConsInjective(online[1], SteppedWithout(rest, name), Without(rest, name));
      if Neighbours(rest, name) {
        var i :| 0 <= i < |rest| - 1 && rest[i] == name && rest[i + 1] == name;
        assert online[i + 2] == name && online[i + 3] == name;
      }
      if Neighbours(online, name) {
        var i :| 0 <= i < |online| - 1 && online[i] == name && online[i + 1] == name;
        assert rest[i - 2] == name && rest[i - 1] == name;
      }
    }
  }

  lemma ConsInjective(x: string, a: seq<string>, b: seq<string>)
    ensures [x] + a == [x] + b <==> a == b
  {
    if [x] + a == [x] + b {
      assert a == ([x] + a)[1..] && b == ([x] + b)[1..];
    }
  }

  lemma ThreeCategories(a: Category, b: Category, c: Category, d: Category)
    requires !a.CategoryError? && !b.CategoryError? && !c.CategoryError? && !d.CategoryError?
    ensures a == b || a == c || a == d || b == c || b == d || c == d
  {
  }

  /** The exclusion rule never leaves more than one device per category. */
  lemma AtMostThree(online: seq<string>)
    requires Exclusive(online)
    ensures |online| <= 3
  {
    if |online| > 3 {
      ThreeCategories(CategoryOf(TypeOf(online[0])), CategoryOf(TypeOf(online[1])),
                      CategoryOf(TypeOf(online[2])), CategoryOf(TypeOf(online[3])));
    }
  }

  /** Under the exclusion rule slotDelDev removes the named device, all others stay in order. */
  lemma {:induction false} DeleteIsExact(online: seq<string>, name: string)
    requires Exclusive(online)
    ensures SteppedWithout(online, name) == Without(online, name) && Exclusive(Without(online, name))
  {
    LoopRemovesAllExactly(online, name);
    WithoutExclusive(online, name);
  }

  lemma {:induction false} WithoutExclusive(online: seq<string>, name: string)
    requires Exclusive(online)
    ensures Exclusive(Without(online, name))
  {
    if online != [] {
      var rest := online[1..];
      WithoutExclusive(rest, name);
      WithoutLacks(rest, name);
      var w := Without(rest, name);
      forall j | 0 <= j < |w| ensures CategoryOf(TypeOf(online[0])) != CategoryOf(TypeOf(w[j])) {
        assert w[j] in rest;
      }
    }
  }

  ghost predicate Distinct(online: seq<string>) {
    forall i, j :: 0 <= i < j < |online| ==> online[i] != online[j]
  }

  lemma ExclusiveIsDistinct(online: seq<string>)
    requires Exclusive(online)
    ensures Distinct(online)
  {
  }

  /** With at most one match, removing all matches removes one device from its place. */
  lemma {:induction false} WithoutOne(online: seq<string>, name: string) returns (i: nat)
    requires Distinct(online)
    ensures name !in online ==> Without(online, name) == online
    ensures name in online ==> i < |online| && online[i] == name && Without(online, name) == online[..i] + online[i + 1..]
  {
    i := 0;
    if online != [] {
      var rest := online[1..];
      var k := WithoutOne(rest, name);
      assert online == [online[0]] + rest;
      if online[0] == name {
        assert name !in rest;
      } else if name in rest {
        i := k + 1;
        ConsCut(online[0], rest, k);
      }
    }
  }

  lemma ConsCut(x: string, rest: seq<string>, k: nat)
    requires k < |rest|
    ensures ([x] + rest)[..k + 1] + ([x] + rest)[k + 2..] == [x] + (rest[..k] + rest[k + 1..])
  {
  }

  // ---------- the worker ----------

  function Commands(online: seq<string>): seq<string> {
    seq(|online|, i requires 0 <= i < |online| => CmdOf(TypeOf(online[i])))
  }

  /** The queries the devices get. */
  lemma KnownCommands()
    ensures Commands(["MWS600", "RD3000C", "VD920G"]) == [":014400BB\r\n", "SCAN 02\r\n", "DRAW 03\r\n"]
    ensures Commands(["RD3000B", "VD930A"]) == Commands(["MWS600", "VD920G"])
  {
  }

  const CMD_INTERVAL: nat := 500

  class Worker {
    var online: seq<string>
    var cmdList: seq<string>
    var timerActive: bool

    ghost predicate Valid()
      reads this
    {
      Exclusive(online) && (!timerActive ==> cmdList == [])
    }

    constructor ()
      ensures Valid() && online == [] && cmdList == [] && !timerActive
    {
      online, cmdList, timerActive := [], [], false;
    }

    method Allow2Create(dev: string) returns (ok: bool)
      ensures ok <==> Allowed(online, dev)
    {
      for i := 0 to |online|
        invariant forall j :: 0 <= j < i ==> !Excludes(online[j], dev)
      {
        if Excludes(online[i], dev) {
          return false;
        }
      }
      ok := true;
    }

    /** The answer emitted, if any. */
    method SlotAddDev(devType: string) returns (result: Option<bool>)
      requires Valid()
      modifies this`online
      ensures Valid()
      ensures result == if IsValid(devType) then Some(Allowed(old(online), devType)) else None
      ensures online == if result == Some(true) then old(online) + [devType] else old(online)
      ensures online == Added(old(online), devType)
    {
      if !IsValid(devType) {
        return None;
      }
      var ok := Allow2Create(devType);
      if ok {
        online := online + [devType];
      }
      result := Some(ok);
    }

    /** The number of "off line" answers emitted. */
    method SlotDelDev(devType: string) returns (removed: nat)
      requires Valid()
      modifies this`online
      ensures Valid()
      ensures online == Deleted(old(online), devType)
      ensures devType !in old(online) || !IsValid(devType) ==> online == old(online)
      ensures devType in old(online) && IsValid(devType) ==>
                exists i :: 0 <= i < |old(online)| && old(online)[i] == devType
                            && online == old(online)[..i] + old(online)[i + 1..]
      ensures removed == |old(online)| - |online|
    {
      removed := 0;
      if !IsValid(devType) {
        return;
      }
      DeleteIsExact(online, devType);
      ExclusiveIsDistinct(online);
      ghost var i := WithoutOne(online, devType);
      removed := DeleteLoop(devType);
    }

    method DeleteLoop(devType: string) returns (removed: nat)
      modifies this`online
      ensures online == SteppedWithout(old(online), devType)
      ensures removed == |old(online)| - |online|
    {
      removed := 0;
      var i := 0;
      LoopStepsOver(online, 0, devType);
      while i < |online|
        invariant 0 <= i && LoopFrom(online, i, devType) == LoopFrom(old(online), 0, devType)
        invariant removed == |old(online)| - |online|
        decreases |online| - i
      {
        if online[i] == devType {
          removed := removed + 1;
          online := online[..i] + online[i + 1..];
        }
        i := i + 1;
      }
      assert old(online)[0..] == old(online);
    }

    method GetLatestData()
      requires Valid()
      modifies this`cmdList, this`timerActive
      ensures Valid() && timerActive
      ensures cmdList == if old(timerActive) then old(cmdList) else Commands(online)
      ensures !old(timerActive) ==>
                |cmdList| == |online| && forall i :: 0 <= i < |online| ==> cmdList[i] == CmdOf(TypeOf(online[i]))
    {
      if timerActive {
        return;
      }
      for i := 0 to |online|
        invariant cmdList == Commands(online)[..i]
      {
        cmdList := cmdList + [CmdOf(TypeOf(online[i]))];
      }
      timerActive := true;
    }

    /** One timeout: a command goes out, or the round ends and readiness is signalled. */
    method OnTimeout() returns (sent: Option<string>, ready: bool)
      requires Valid() && timerActive
      modifies this`cmdList, this`timerActive
      ensures Valid()
      ensures ready <==> old(cmdList) == []
      ensures sent == if ready then None else Some(old(cmdList)[0])
      ensures cmdList == if ready then [] else old(cmdList)[1..]
      ensures timerActive <==> !ready
    {
      if |cmdList| != 0 {
        sent, ready := Some(cmdList[0]), false;
        cmdList := cmdList[1..];
      } else {
        timerActive := false;
        sent, ready := None, true;
      }
    }
  }
}
