/**
  Rendering the configuration of a managed node from a profile: without WARP the WARP outbound and
  the rules to it go, the assigned port and the protocol settings go into every inbound.
 */
module ManagedConfig {
  import opened Wrappers
  import opened Json

  /** `mbps` writes a number the way the rendered speed limits do. */
  datatype Node = Node(
    protocolKey: Option<string>, externalPort: Option<nat>, protocolSettings: Members, mbps: real -> string)

  const WARP_TAG := Str("WARP_OUT")

  // ----- the WARP outbound and its rules

  predicate HasField(v: Value, key: string, value: Value) {
    v.Obj? && Get(v.members, key) == Some(value)
  }

  function WithoutField(items: seq<Value>, key: string, value: Value): (r: seq<Value>)
    ensures forall v :: v in r <==> v in items && !HasField(v, key, value)
  {
    if items == [] then []
    else
      var front, last := WithoutField(items[..|items| - 1], key, value), items[|items| - 1];
      if HasField(last, key, value) then front else front + [last]
  }

  /** The filter works item by item, so what it keeps stays in order. */
  lemma {:induction false} WithoutFieldSplits(a: seq<Value>, b: seq<Value>, key: string, value: Value)
    ensures WithoutField(a + b, key, value) == WithoutField(a, key, value) + WithoutField(b, key, value)
  {
    if b == [] {
      assert a + b == a;
    } else {
      var front := b[..|b| - 1];
      WithoutFieldSplits(a, front, key, value);
      assert (a + b)[..|a + b| - 1] == a + front;
      var last := b[|b| - 1];
      Associates(WithoutField(a, key, value), WithoutField(front, key, value),
        if HasField(last, key, value) then [] else [last]);
    }
  }

  lemma {:induction false} WithoutFieldStays(items: seq<Value>, key: string, value: Value)
    requires forall v :: v in items ==> !HasField(v, key, value)
    ensures WithoutField(items, key, value) == items
  {
    if items != [] {
      assert items[|items| - 1] in items;
      WithoutFieldStays(items[..|items| - 1], key, value);
    }
  }

  predicate WarpEnabled(node: Node) {
    Get(node.protocolSettings, "warpEnabled") == Some(Bool(true))
  }

  function FilteredList(members: Members, key: string, field: string): Members {
    var list := Get(members, key);
    if list.Some? && list.value.Arr? then Set(members, key, Arr(WithoutField(list.value.items, field, WARP_TAG)))
    else members
  }

  function WithoutWarp(config: Members): Members {
    var filtered := FilteredList(config, "outbounds", "tag");
    var routing := Get(filtered, "routing");
    if routing.Some? && routing.value.Obj? then
      Set(filtered, "routing", Obj(FilteredList(routing.value.members, "rules", "outboundTag")))
    else filtered
  }

  // ----- the inbounds

  /** Assigns the setting when it is a string. */
  function WithText(members: Members, key: string, setting: Option<Value>): Members {
    if setting.Some? && setting.value.Str? then Set(members, key, setting.value) else members
  }

  function WithTextList(members: Members, key: string, setting: Option<Value>): Members {
    if setting.Some? && setting.value.Str? then Set(members, key, Arr([setting.value])) else members
  }

  function WithSpeed(members: Members, key: string, setting: Option<Value>, mbps: real -> string): Members {
    if setting.Some? && setting.value.Num? then Set(members, key, Str(mbps(setting.value.number))) else members
  }

  function RealitySettings(settings: Members, node: Node): Members {
    var named := WithTextList(settings, "serverNames", Get(node.protocolSettings, "serverName"));
    WithText(named, "target", Get(node.protocolSettings, "target"))
  }

  function HysteriaSettings(settings: Members, node: Node): Members {
    var controlled := WithText(settings, "congestion", Get(node.protocolSettings, "congestion"));
    var limited := WithSpeed(controlled, "up", Get(node.protocolSettings, "upMbps"), node.mbps);
    WithSpeed(limited, "down", Get(node.protocolSettings, "downMbps"), node.mbps)
  }

  /** Rewrites the object under `key`, if there is one. */
  function Within(members: Members, key: string, rewrite: Members -> Members): Members {
    var inner := Get(members, key);
    if inner.Some? && inner.value.Obj? then Set(members, key, Obj(rewrite(inner.value.members))) else members
  }

  function StreamSettings(stream: Members, node: Node): Members {
    if node.protocolKey == Some("VLESS_REALITY") then
      Within(stream, "realitySettings", settings => RealitySettings(settings, node))
    else if node.protocolKey == Some("HYSTERIA2") then
      Within(stream, "hysteriaSettings", settings => HysteriaSettings(settings, node))
    else stream
  }

  function WithPort(inbound: Members, node: Node): Members {
    if node.externalPort.Some? && node.externalPort.value != 0
    then Set(inbound, "port", Num(node.externalPort.value as real))
    else inbound
  }

  function RenderedInbound(inbound: Value, node: Node): Value {
    if !inbound.Obj? then inbound
    else Obj(Within(WithPort(inbound.members, node), "streamSettings", stream => StreamSettings(stream, node)))
  }

  function RenderedInbounds(inbounds: seq<Value>, node: Node): seq<Value> {
    seq(|inbounds|, i requires 0 <= i < |inbounds| => RenderedInbound(inbounds[i], node))
  }

  function Rendered(source: Members, node: Node): Members {
    var config := if WarpEnabled(node) then source else WithoutWarp(source);
    var inbounds := Get(config, "inbounds");
    if inbounds.Some? && inbounds.value.Arr?
    then Set(config, "inbounds", Arr(RenderedInbounds(inbounds.value.items, node)))
    else config
  }

  method RenderStream(stream: Members, node: Node) returns (streamSettings: Members)
    ensures streamSettings == StreamSettings(stream, node)
  {
    streamSettings := stream;
    if node.protocolKey == Some("VLESS_REALITY") {
      var reality := Get(streamSettings, "realitySettings");
      if reality.Some? && reality.value.Obj? {
        var settings := reality.value.members;
        var serverName, target := Get(node.protocolSettings, "serverName"), Get(node.protocolSettings, "target");
        if serverName.Some? && serverName.value.Str? {
          settings := Set(settings, "serverNames", Arr([serverName.value]));
        }
        if target.Some? && target.value.Str? {
          settings := Set(settings, "target", target.value);
        }
        streamSettings := Set(streamSettings, "realitySettings", Obj(settings));
      }
    } else if node.protocolKey == Some("HYSTERIA2") {
      var hysteria := Get(streamSettings, "hysteriaSettings");
      if hysteria.Some? && hysteria.value.Obj? {
        var settings := hysteria.value.members;
        var congestion := Get(node.protocolSettings, "congestion");
        var up, down := Get(node.protocolSettings, "upMbps"), Get(node.protocolSettings, "downMbps");
        if congestion.Some? && congestion.value.Str? {
          settings := Set(settings, "congestion", congestion.value);
        }
        if up.Some? && up.value.Num? {
          settings := Set(settings, "up", Str(node.mbps(up.value.number)));
        }
        if down.Some? && down.value.Num? {
          settings := Set(settings, "down", Str(node.mbps(down.value.number)));
        }
        streamSettings := Set(streamSettings, "hysteriaSettings", Obj(settings));
      }
    }
  }

  method RenderInbound(inbound: Members, node: Node) returns (r: Members)
    ensures Obj(r) == RenderedInbound(Obj(inbound), node)
  {
    r := inbound;
    if node.externalPort.Some? && node.externalPort.value != 0 {
      r := Set(r, "port", Num(node.externalPort.value as real));
    }
    var stream := Get(r, "streamSettings");
    if stream.Some? && stream.value.Obj? {
      var streamSettings := RenderStream(stream.value.members, node);
      r := Set(r, "streamSettings", Obj(streamSettings));
    }
  }

  method RenderInbounds(list: seq<Value>, node: Node) returns (inbounds: seq<Value>)
    ensures inbounds == RenderedInbounds(list, node)
  {
    inbounds := list;
    for i := 0 to |list|
      invariant |inbounds| == |list|
      invariant forall k :: 0 <= k < i ==> inbounds[k] == RenderedInbound(list[k], node)
      invariant forall k :: i <= k < |list| ==> inbounds[k] == list[k]
    {
      if !inbounds[i].Obj? {
        continue;
      }
      var inbound := RenderInbound(inbounds[i].members, node);
      inbounds := inbounds[i := Obj(inbound)];
    }
  }

  method RenderManagedConfig(source: Members, node: Node) returns (config: Members)
    ensures config == Rendered(source, node)
  {
    config := source;
    if !WarpEnabled(node) {
      var outbounds := Get(config, "outbounds");
      if outbounds.Some? && outbounds.value.Arr? {
        config := Set(config, "outbounds", Arr(WithoutField(outbounds.value.items, "tag", WARP_TAG)));
      }
      var routing := Get(config, "routing");
      if routing.Some? && routing.value.Obj? {
        config := Set(config, "routing", Obj(FilteredList(routing.value.members, "rules", "outboundTag")));
      }
    }
    var list := Get(config, "inbounds");
    if list.None? || !list.value.Arr? {
      return;
    }
    var inbounds := RenderInbounds(list.value.items, node);
    config := Set(config, "inbounds", Arr(inbounds));
  }

  // ----- what rendering changes and what it leaves

  /** The items of the list under `key`; none when there is no list. */
  function ListAt(members: Members, key: string): seq<Value> {
    var list := Get(members, key);
    if list.Some? && list.value.Arr? then list.value.items else []
  }

  function ObjectAt(members: Members, key: string): Members {
    var inner := Get(members, key);
    if inner.Some? && inner.value.Obj? then inner.value.members else []
  }

  function Outbounds(config: Members): seq<Value> {
    ListAt(config, "outbounds")
  }

  function Rules(config: Members): seq<Value> {
    ListAt(ObjectAt(config, "routing"), "rules")
  }

  lemma FilteredListReads(members: Members, key: string, field: string, other: string)
    ensures ListAt(FilteredList(members, key, field), key) == WithoutField(ListAt(members, key), field, WARP_TAG)
    ensures other != key ==> Get(FilteredList(members, key, field), other) == Get(members, other)
  {
    var list := Get(members, key);
    if list.Some? && list.value.Arr? {
      var filtered := Arr(WithoutField(list.value.items, field, WARP_TAG));
      GetAfterSet(members, key, filtered, other);
      GetAfterSet(members, key, filtered, key);
    }
  }

  lemma WithinReads(members: Members, key: string, rewrite: Members -> Members, other: string)
    ensures other != key ==> Get(Within(members, key, rewrite), other) == Get(members, other)
    ensures var inner := Get(members, key);
      Get(Within(members, key, rewrite), key) ==
      if inner.Some? && inner.value.Obj? then Some(Obj(rewrite(inner.value.members))) else inner
  {
    var inner := Get(members, key);
    if inner.Some? && inner.value.Obj? {
      GetAfterSet(members, key, Obj(rewrite(inner.value.members)), other);
      GetAfterSet(members, key, Obj(rewrite(inner.value.members)), key);
    }
  }

  function FilteredRules(routing: Members): Members {
    FilteredList(routing, "rules", "outboundTag")
  }

  lemma WithoutWarpIsWithin(config: Members)
    ensures WithoutWarp(config) == Within(FilteredList(config, "outbounds", "tag"), "routing", FilteredRules)
  {
  }

  lemma WithoutWarpReads(config: Members, key: string)
    ensures Outbounds(WithoutWarp(config)) == WithoutField(Outbounds(config), "tag", WARP_TAG)
    ensures Rules(WithoutWarp(config)) == WithoutField(Rules(config), "outboundTag", WARP_TAG)
    ensures key != "outbounds" && key != "routing" ==> Get(WithoutWarp(config), key) == Get(config, key)
    ensures key != "rules" ==>
              Get(ObjectAt(WithoutWarp(config), "routing"), key) == Get(ObjectAt(config, "routing"), key)
  {
    var filtered := FilteredList(config, "outbounds", "tag");
    WithoutWarpIsWithin(config);
    FilteredListReads(config, "outbounds", "tag", key);
    FilteredListReads(config, "outbounds", "tag", "routing");
    WithinReads(filtered, "routing", FilteredRules, key);
    WithinReads(filtered, "routing", FilteredRules, "outbounds");
    FilteredListReads(ObjectAt(config, "routing"), "rules", "outboundTag", key);
    assert FilteredRules([]) == [];
  }

  lemma InboundsReads(config: Members, node: Node, key: string)
    ensures var inbounds := Get(config, "inbounds");
      var r :=
        if inbounds.Some? && inbounds.value.Arr?
        then Set(config, "inbounds", Arr(RenderedInbounds(inbounds.value.items, node))) else config;
      ListAt(r, "inbounds") == RenderedInbounds(ListAt(config, "inbounds"), node)
      && (key != "inbounds" ==> Get(r, key) == Get(config, key))
  {
    var inbounds := Get(config, "inbounds");
    if inbounds.Some? && inbounds.value.Arr? {
      GetAfterSet(config, "inbounds", Arr(RenderedInbounds(inbounds.value.items, node)), key);
      GetAfterSet(config, "inbounds", Arr(RenderedInbounds(inbounds.value.items, node)), "inbounds");
    }
  }

  /**
    Without WARP exactly the WARP outbounds and the rules to them are gone, the rest in order; with
    WARP both lists are as they were. No other part of the configuration but the inbounds changes.
   */
  lemma RenderingReads(source: Members, node: Node, key: string)
    ensures var r := Rendered(source, node);
      && Outbounds(r) ==
        (if WarpEnabled(node) then Outbounds(source) else WithoutField(Outbounds(source), "tag", WARP_TAG))
      && Rules(r) == (if WarpEnabled(node) then Rules(source) else WithoutField(Rules(source), "outboundTag", WARP_TAG))
      && ListAt(r, "inbounds") == RenderedInbounds(ListAt(source, "inbounds"), node)
      && (key != "outbounds" && key != "routing" && key != "inbounds" ==> Get(r, key) == Get(source, key))
      && (key != "rules" ==> Get(ObjectAt(r, "routing"), key) == Get(ObjectAt(source, "routing"), key))
  {
    var config := if WarpEnabled(node) then source else WithoutWarp(source);
    WithoutWarpReads(source, key);
    WithoutWarpReads(source, "inbounds");
    InboundsReads(config, node, key);
    InboundsReads(config, node, "outbounds");
    InboundsReads(config, node, "routing");
  }

  /** Unless the settings say `warpEnabled: true`, what is tagged or routed to WARP_OUT is gone, and nothing else. */
  lemma WhatIsFiltered(source: Members, node: Node, v: Value)
    ensures var warp := Get(node.protocolSettings, "warpEnabled") == Some(Bool(true));
            var r := Rendered(source, node);
            && (v in Outbounds(r) <==>
                  v in Outbounds(source) && (warp || !(v.Obj? && Get(v.members, "tag") == Some(Str("WARP_OUT")))))
            && (v in Rules(r) <==>
                  v in Rules(source) && (warp || !(v.Obj? && Get(v.members, "outboundTag") == Some(Str("WARP_OUT")))))
  {
    RenderingReads(source, node, "");
  }

  // ----- references from rules to outbounds

  /** The outbound a rule names. */
  function Target(rule: Value): Option<Value> {
    if rule.Obj? then Get(rule.members, "outboundTag") else None
  }

  ghost predicate Resolves(rule: Value, outbounds: seq<Value>) {
    Target(rule).Some? ==> exists o :: o in outbounds && HasField(o, "tag", Target(rule).value)
  }

  ghost predicate AllResolve(config: Members) {
    forall rule :: rule in Rules(config) ==> Resolves(rule, Outbounds(config))
  }

  /** Filtering takes away no outbound that a remaining rule names. */
  lemma FilteringKeepsTargets(rule: Value, outbounds: seq<Value>)
    requires !HasField(rule, "outboundTag", WARP_TAG)
    ensures Resolves(rule, WithoutField(outbounds, "tag", WARP_TAG)) <==> Resolves(rule, outbounds)
  {
    if Target(rule).Some? {
      forall o | o in outbounds && HasField(o, "tag", Target(rule).value)
        ensures o in WithoutField(outbounds, "tag", WARP_TAG)
      {
      }
    }
  }

  /**
    Every rule of the rendered configuration names an existing outbound exactly when, in the
    source, every rule did that is not a rule to WARP on a node without WARP.
   */
  lemma ReferencesStayResolved(source: Members, node: Node)
    ensures AllResolve(source) ==> AllResolve(Rendered(source, node))
    ensures AllResolve(Rendered(source, node)) <==>
      forall rule :: rule in Rules(source) && (WarpEnabled(node) || !HasField(rule, "outboundTag", WARP_TAG)) ==>
        Resolves(rule, Outbounds(source))
  {
    RenderingReads(source, node, "");
    if !WarpEnabled(node) {
      forall rule | rule in Rules(Rendered(source, node))
        ensures Resolves(rule, Outbounds(Rendered(source, node))) <==> Resolves(rule, Outbounds(source))
      {
        FilteringKeepsTargets(rule, Outbounds(source));
      }
    }
  }

  // ----- the fields of an inbound

  predicate IsText(setting: Option<Value>) {
    setting.Some? && setting.value.Str?
  }

  predicate IsNumber(setting: Option<Value>) {
    setting.Some? && setting.value.Num?
  }

  /** The field that is assigned holds the setting, every other field is as it was. */
  lemma RealityFields(settings: Members, node: Node, key: string)
    ensures var serverName, target := Get(node.protocolSettings, "serverName"), Get(node.protocolSettings, "target");
      Get(RealitySettings(settings, node), key) ==
        if key == "serverNames" && IsText(serverName) then Some(Arr([serverName.value]))
        else if key == "target" && IsText(target) then target
        else Get(settings, key)
  {
    var serverName, target := Get(node.protocolSettings, "serverName"), Get(node.protocolSettings, "target");
    var named := WithTextList(settings, "serverNames", serverName);
    if IsText(serverName) {
      GetAfterSet(settings, "serverNames", Arr([serverName.value]), key);
    }
    if IsText(target) {
      GetAfterSet(named, "target", target.value, key);
    }
  }

  lemma HysteriaFields(settings: Members, node: Node, key: string)
    ensures var congestion := Get(node.protocolSettings, "congestion");
      var up, down := Get(node.protocolSettings, "upMbps"), Get(node.protocolSettings, "downMbps");
      Get(HysteriaSettings(settings, node), key) ==
        if key == "congestion" && IsText(congestion) then congestion
        else if key == "up" && IsNumber(up) then Some(Str(node.mbps(up.value.number)))
        else if key == "down" && IsNumber(down) then Some(Str(node.mbps(down.value.number)))
        else Get(settings, key)
  {
    var congestion := Get(node.protocolSettings, "congestion");
    var up, down := Get(node.protocolSettings, "upMbps"), Get(node.protocolSettings, "downMbps");
    var controlled := WithText(settings, "congestion", congestion);
    var limited := WithSpeed(controlled, "up", up, node.mbps);
    if IsText(congestion) {
      GetAfterSet(settings, "congestion", congestion.value, key);
    }
    if IsNumber(up) {
      GetAfterSet(controlled, "up", Str(node.mbps(up.value.number)), key);
    }
    if IsNumber(down) {
      GetAfterSet(limited, "down", Str(node.mbps(down.value.number)), key);
    }
  }

  /** A VLESS Reality node rewrites its Reality settings, a Hysteria 2 node its Hysteria settings, if they are there. */
  lemma StreamFields(stream: Members, node: Node, key: string)
    ensures var inner := Get(stream, key);
      Get(StreamSettings(stream, node), key) ==
        if inner.None? || !inner.value.Obj? then inner
        else if key == "realitySettings" && node.protocolKey == Some("VLESS_REALITY") then
          Some(Obj(RealitySettings(inner.value.members, node)))
        else if key == "hysteriaSettings" && node.protocolKey == Some("HYSTERIA2") then
          Some(Obj(HysteriaSettings(inner.value.members, node)))
        else inner
  {
    WithinReads(stream, "realitySettings", settings => RealitySettings(settings, node), key);
    WithinReads(stream, "hysteriaSettings", settings => HysteriaSettings(settings, node), key);
  }

  /** Each inbound is rendered in its place; what is no object stays as it is. */
  lemma EachInbound(inbounds: seq<Value>, node: Node, i: nat)
    requires i < |inbounds|
    ensures |RenderedInbounds(inbounds, node)| == |inbounds|
    ensures var r := RenderedInbounds(inbounds, node)[i];
            if inbounds[i].Obj? then r.Obj? && r == RenderedInbound(inbounds[i], node) else r == inbounds[i]
  {}

  /** What a VLESS Reality node finds in each rendered inbound that has Reality settings. */
  lemma RealityInboundGets(source: Members, node: Node, i: nat)
    requires node.protocolKey == Some("VLESS_REALITY") && i < |ListAt(source, "inbounds")|
    requires var inbound := ListAt(source, "inbounds")[i];
             && inbound.Obj? && Get(inbound.members, "streamSettings").Some?
             && var stream := Get(inbound.members, "streamSettings").value;
             stream.Obj? && Get(stream.members, "realitySettings").Some?
             && Get(stream.members, "realitySettings").value.Obj?
    ensures |ListAt(Rendered(source, node), "inbounds")| == |ListAt(source, "inbounds")|
    ensures var inbound := ListAt(Rendered(source, node), "inbounds")[i];
            var given := node.protocolSettings;
            && inbound.Obj?
            && var reality := ObjectAt(ObjectAt(inbound.members, "streamSettings"), "realitySettings");
            && (node.externalPort.Some? && node.externalPort.value != 0 ==>
                  Get(inbound.members, "port") == Some(Num(node.externalPort.value as real)))
            && (IsText(Get(given, "serverName")) ==>
                  Get(reality, "serverNames") == Some(Arr([Get(given, "serverName").value])))
            && (IsText(Get(given, "target")) ==> Get(reality, "target") == Get(given, "target"))
  {
    RenderingReads(source, node, "");
    var inbound := ListAt(source, "inbounds")[i].members;
    var stream := Get(inbound, "streamSettings").value.members;
    InboundFields(inbound, node, "port");
    InboundFields(inbound, node, "streamSettings");
    StreamFields(stream, node, "realitySettings");
    RealityFields(Get(stream, "realitySettings").value.members, node, "serverNames");
    RealityFields(Get(stream, "realitySettings").value.members, node, "target");
  }

  /** Rendering an inbound assigns the port and rewrites the stream settings; its other fields stay. */
  lemma InboundFields(inbound: Members, node: Node, key: string)
    ensures var r := RenderedInbound(Obj(inbound), node).members;
      var stream := Get(inbound, "streamSettings");
      Get(r, key) ==
        if key == "port" && node.externalPort.Some? && node.externalPort.value != 0 then
          Some(Num(node.externalPort.value as real))
        else if key == "streamSettings" && stream.Some? && stream.value.Obj? then
          Some(Obj(StreamSettings(stream.value.members, node)))
        else Get(inbound, key)
  {
    var ported := WithPort(inbound, node);
    if node.externalPort.Some? && node.externalPort.value != 0 {
      GetAfterSet(inbound, "port", Num(node.externalPort.value as real), key);
      GetAfterSet(inbound, "port", Num(node.externalPort.value as real), "streamSettings");
    }
    WithinReads(ported, "streamSettings", stream => StreamSettings(stream, node), key);
  }

  // ----- rendering twice

  lemma WithTextAgain(members: Members, key: string, setting: Option<Value>)
    requires IsText(setting) ==> Get(members, key) == setting
    ensures WithText(members, key, setting) == members
  {
    if IsText(setting) {
      SetAgain(members, key, setting.value);
    }
  }

  lemma RealityAgain(settings: Members, node: Node)
    ensures RealitySettings(RealitySettings(settings, node), node) == RealitySettings(settings, node)
  {
    var r := RealitySettings(settings, node);
    var serverName := Get(node.protocolSettings, "serverName");
    RealityFields(settings, node, "serverNames");
    RealityFields(settings, node, "target");
    if IsText(serverName) {
      SetAgain(r, "serverNames", Arr([serverName.value]));
    }
    WithTextAgain(r, "target", Get(node.protocolSettings, "target"));
  }

  lemma WithSpeedAgain(members: Members, key: string, setting: Option<Value>, mbps: real -> string)
    requires IsNumber(setting) ==> Get(members, key) == Some(Str(mbps(setting.value.number)))
    ensures WithSpeed(members, key, setting, mbps) == members
  {
    if IsNumber(setting) {
      SetAgain(members, key, Str(mbps(setting.value.number)));
    }
  }

  lemma HysteriaAgain(settings: Members, node: Node)
    ensures HysteriaSettings(HysteriaSettings(settings, node), node) == HysteriaSettings(settings, node)
  {
    var r := HysteriaSettings(settings, node);
    HysteriaFields(settings, node, "congestion");
    HysteriaFields(settings, node, "up");
    HysteriaFields(settings, node, "down");
    WithTextAgain(r, "congestion", Get(node.protocolSettings, "congestion"));
    WithSpeedAgain(r, "up", Get(node.protocolSettings, "upMbps"), node.mbps);
    WithSpeedAgain(r, "down", Get(node.protocolSettings, "downMbps"), node.mbps);
  }

  lemma WithinAgain(members: Members, key: string, rewrite: Members -> Members)
    requires forall m :: rewrite(rewrite(m)) == rewrite(m)
    ensures Within(Within(members, key, rewrite), key, rewrite) == Within(members, key, rewrite)
  {
    var inner := Get(members, key);
    WithinReads(members, key, rewrite, key);
    if inner.Some? && inner.value.Obj? {
      SetAgain(Within(members, key, rewrite), key, Obj(rewrite(inner.value.members)));
    }
  }

  lemma StreamAgain(stream: Members, node: Node)
    ensures StreamSettings(StreamSettings(stream, node), node) == StreamSettings(stream, node)
  {
    forall m: Members
      ensures RealitySettings(RealitySettings(m, node), node) == RealitySettings(m, node)
      ensures HysteriaSettings(HysteriaSettings(m, node), node) == HysteriaSettings(m, node)
    {
      RealityAgain(m, node);
      HysteriaAgain(m, node);
    }
    WithinAgain(stream, "realitySettings", settings => RealitySettings(settings, node));
    WithinAgain(stream, "hysteriaSettings", settings => HysteriaSettings(settings, node));
  }

  lemma InboundAgain(inbound: Value, node: Node)
    ensures RenderedInbound(RenderedInbound(inbound, node), node) == RenderedInbound(inbound, node)
  {
    if inbound.Obj? {
      var r := RenderedInbound(inbound, node).members;
      InboundFields(inbound.members, node, "port");
      if node.externalPort.Some? && node.externalPort.value != 0 {
        SetAgain(r, "port", Num(node.externalPort.value as real));
      }
      forall m: Members
        ensures StreamSettings(StreamSettings(m, node), node) == StreamSettings(m, node)
      {
        StreamAgain(m, node);
      }
      WithinAgain(WithPort(inbound.members, node), "streamSettings", stream => StreamSettings(stream, node));
    }
  }

  /** A configuration whose lists are free of WARP stays as it is. */
  lemma FreeOfWarpStays(config: Members)
    requires FilteredList(config, "outbounds", "tag") == config
    requires FilteredRules(ObjectAt(config, "routing")) == ObjectAt(config, "routing")
    ensures WithoutWarp(config) == config
  {
    var routing := Get(config, "routing");
    if routing.Some? && routing.value.Obj? {
      SetAgain(config, "routing", routing.value);
    }
  }

  /** Rendering a rendered configuration for the same node changes nothing. */
  lemma RenderingIsIdempotent(source: Members, node: Node)
    ensures Rendered(Rendered(source, node), node) == Rendered(source, node)
  {
    var r := Rendered(source, node);
    RenderingReads(source, node, "");
    if !WarpEnabled(node) {
      RenderedIsFreeOfWarp(source, node);
      FreeOfWarpStays(r);
    }
    var inbounds := Get(r, "inbounds");
    if inbounds.Some? && inbounds.value.Arr? {
      var rendered := inbounds.value.items;
      forall i | 0 <= i < |rendered|
        ensures RenderedInbound(rendered[i], node) == rendered[i]
      {
        InboundAgain(ListAt(source, "inbounds")[i], node);
      }
      assert RenderedInbounds(rendered, node) == rendered;
      SetAgain(r, "inbounds", inbounds.value);
    }
  }

  lemma RenderedIsFreeOfWarp(source: Members, node: Node)
    requires !WarpEnabled(node)
    ensures FilteredList(Rendered(source, node), "outbounds", "tag") == Rendered(source, node)
    ensures FilteredRules(ObjectAt(Rendered(source, node), "routing")) == ObjectAt(Rendered(source, node), "routing")
  {
    RenderingReads(source, node, "");
    FilteredStays(Rendered(source, node), "outbounds", "tag");
    FilteredStays(ObjectAt(Rendered(source, node), "routing"), "rules", "outboundTag");
  }

  lemma FilteredStays(members: Members, key: string, field: string)
    requires forall v :: v in ListAt(members, key) ==> !HasField(v, field, WARP_TAG)
    ensures FilteredList(members, key, field) == members
  {
    var list := Get(members, key);
    if list.Some? && list.value.Arr? {
      WithoutFieldStays(list.value.items, field, WARP_TAG);
      SetAgain(members, key, list.value);
    }
  }
}
