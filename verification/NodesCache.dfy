/**
  Reading the hot data of nodes from Redis: one by one, or all in one pipeline whose flat list of
  replies is cut into five per node.
 */
module NodesCache {
  import opened Wrappers
  import opened Json

  type Uuid = string

  datatype Key =
    | SystemInfo(uuid: Uuid)
    | SystemStats(uuid: Uuid)
    | UsersOnline(uuid: Uuid)
    | Versions(uuid: Uuid)
    | XrayUptime(uuid: Uuid)

  datatype System = System(info: Value, stats: Value)

  /** `versions` is null when nothing is stored. */
  datatype HotCache = HotCache(system: Option<System>, versions: Value, xrayUptime: real, onlineUsers: real)

  const NOTHING := HotCache(None, Null, 0.0, 0.0)

  /** One reply of a pipeline. */
  datatype Reply = Failed | Replied(raw: Option<string>)

  const KEYS_PER_NODE := 5

  /** A raw reply counts as present when it is a non-empty string. */
  predicate Present(raw: Option<string>) {
    raw.Some? && raw.value != ""
  }

  predicate Truthy(value: Value) {
    match value
    case Null => false
    case Bool(flag) => flag
    case Num(number) => number != 0.0
    case Str(text) => text != ""
    case _ => true
  }

  /** The reply at `i` is present and no error. */
  predicate Usable(reply: Reply) {
    reply.Replied? && Present(reply.raw)
  }

  /** The five keys of a node, in the order they are asked for. */
  function KeysOf(uuid: Uuid): (r: seq<Key>)
    ensures |r| == KEYS_PER_NODE
  {
    [SystemInfo(uuid), SystemStats(uuid), UsersOnline(uuid), Versions(uuid), XrayUptime(uuid)]
  }

  function AllKeys(nodes: seq<Uuid>): (r: seq<Key>)
    ensures |r| == KEYS_PER_NODE * |nodes|
  {
    if nodes == [] then [] else AllKeys(nodes[..|nodes| - 1]) + KeysOf(nodes[|nodes| - 1])
  }

  lemma {:induction false} KeyAt(nodes: seq<Uuid>, i: nat, k: nat)
    requires i < |nodes| && k < KEYS_PER_NODE
    ensures AllKeys(nodes)[KEYS_PER_NODE * i + k] == KeysOf(nodes[i])[k]
  {
    if i < |nodes| - 1 {
      KeyAt(nodes[..|nodes| - 1], i, k);
    }
  }

  /** What is stored, how its strings decode, and how a pipeline turns out. */
  class NodesSystemCache {
    var store: map<Key, string>
    const parse: string -> Value
    const number: string -> real
    /** The next pipeline is aborted as a whole. */
    var aborts: bool
    /** The commands of the next pipeline that fail. */
    var failing: set<nat>

    constructor (
      store: map<Key, string>, parse: string -> Value, number: string -> real, aborts: bool, failing: set<nat>)
      ensures this.store == store && this.parse == parse && this.number == number
      ensures this.aborts == aborts && this.failing == failing
    {
      this.store, this.parse, this.number, this.aborts, this.failing := store, parse, number, aborts, failing;
    }

    function Raw(key: Key): Option<string>
      reads this
    {
      if key in store then Some(store[key]) else None
    }

    function ReplyTo(i: nat, key: Key): Reply
      reads this
    {
      if i in failing then Failed else Replied(Raw(key))
    }

    function Exec(keys: seq<Key>): (replies: Option<seq<Reply>>)
      reads this
      ensures replies.None? <==> aborts
      ensures replies.Some? ==> |replies.value| == |keys|
      ensures replies.Some? ==> forall i :: 0 <= i < |keys| ==> replies.value[i] == ReplyTo(i, keys[i])
    {
      if aborts then None else Some(seq(|keys|, i requires 0 <= i < |keys| reads this => ReplyTo(i, keys[i])))
    }

    // ----- one node

    function Get(key: Key): Value
      reads this
    {
      var raw := Raw(key);
      if Present(raw) then parse(raw.value) else Null
    }

    function GetNumber(key: Key): real
      reads this
    {
      var raw := Raw(key);
      if Present(raw) then number(raw.value) else 0.0
    }

    function GetOne(uuid: Uuid): HotCache
      reads this
    {
      var info, stats := Get(SystemInfo(uuid)), Get(SystemStats(uuid));
      var system := if Truthy(info) && Truthy(stats) then Some(System(info, stats)) else None;
      HotCache(system, Get(Versions(uuid)), GetNumber(XrayUptime(uuid)), GetNumber(UsersOnline(uuid)))
    }

    // ----- many nodes

    /** What the five replies of a node give. */
    function FromReplies(replies: seq<Reply>): HotCache
      requires |replies| == KEYS_PER_NODE
      reads this
    {
      var info, stats, online, versions, uptime := replies[0], replies[1], replies[2], replies[3], replies[4];
      HotCache(
        if Usable(info) && Usable(stats) then Some(System(parse(info.raw.value), parse(stats.raw.value))) else None,
        if Usable(versions) then parse(versions.raw.value) else Null,
        if Usable(uptime) then number(uptime.raw.value) else 0.0,
        if Usable(online) then number(online.raw.value) else 0.0)
    }

    /** The replies to the five commands of the node at `i`. */
    function RepliesAt(nodes: seq<Uuid>, i: nat): (r: seq<Reply>)
      requires i < |nodes|
      reads this
      ensures |r| == KEYS_PER_NODE
    {
      seq(KEYS_PER_NODE, k requires 0 <= k < KEYS_PER_NODE reads this =>
        ReplyTo(KEYS_PER_NODE * i + k, KeysOf(nodes[i])[k]))
    }

    /** The result after the first `n` nodes; a node listed twice is overwritten. */
    function HotOf(nodes: seq<Uuid>, n: nat): map<Uuid, HotCache>
      requires n <= |nodes|
      reads this
    {
      if n == 0 then map[] else HotOf(nodes, n - 1)[nodes[n - 1] := FromReplies(RepliesAt(nodes, n - 1))]
    }

    /** The flat replies from `KEYS_PER_NODE * i` on are those of the node at `i`. */
    lemma CutAt(nodes: seq<Uuid>, replies: seq<Reply>, i: nat)
      requires i < |nodes| && |replies| == KEYS_PER_NODE * |nodes|
      requires forall k :: 0 <= k < |replies| ==> replies[k] == ReplyTo(k, AllKeys(nodes)[k])
      ensures KEYS_PER_NODE * (i + 1) <= |replies|
      ensures replies[KEYS_PER_NODE * i..KEYS_PER_NODE * (i + 1)] == RepliesAt(nodes, i)
    {
      var cut := replies[KEYS_PER_NODE * i..KEYS_PER_NODE * (i + 1)];
      forall k | 0 <= k < KEYS_PER_NODE
        ensures cut[k] == RepliesAt(nodes, i)[k]
      {
        KeyAt(nodes, i, k);
      }
    }

    method Pipeline(nodes: seq<Uuid>) returns (pipe: seq<Key>)
      ensures pipe == AllKeys(nodes)
    {
      pipe := [];
      for i := 0 to |nodes|
        invariant pipe == AllKeys(nodes[..i])
      {
        assert nodes[..i + 1][..i] == nodes[..i];
        pipe := pipe + [SystemInfo(nodes[i]), SystemStats(nodes[i]), UsersOnline(nodes[i]), Versions(nodes[i]),
            XrayUptime(nodes[i])];
      }
      assert nodes[..|nodes|] == nodes;
    }

    method GetMany(nodes: seq<Uuid>) returns (hot: map<Uuid, HotCache>)
      ensures hot == if aborts then (map uuid | uuid in nodes :: NOTHING) else HotOf(nodes, |nodes|)
      ensures forall uuid :: uuid in hot <==> uuid in nodes
      ensures aborts ==> forall uuid :: uuid in hot ==> hot[uuid] == HotCache(None, Null, 0.0, 0.0)
    {
      var pipe := Pipeline(nodes);
      var results := Exec(pipe);
      hot := map[];
      if results.None? {
        for i := 0 to |nodes|
          invariant hot == map uuid | uuid in nodes[..i] :: NOTHING
        {
          assert nodes[..i + 1] == nodes[..i] + [nodes[i]];
          hot := hot[nodes[i] := NOTHING];
        }
        assert nodes[..|nodes|] == nodes;
        return;
      }
      for i := 0 to |nodes|
        invariant hot == HotOf(nodes, i)
      {
        CutAt(nodes, results.value, i);
        hot := hot[nodes[i] := FromReplies(results.value[KEYS_PER_NODE * i..KEYS_PER_NODE * (i + 1)])];
      }
      forall uuid
        ensures uuid in hot <==> uuid in nodes
      {
        HotIsLastReplies(nodes, |nodes|, uuid);
        assert nodes[..|nodes|] == nodes;
      }
    }

    // ----- online users

    function OnlineUsers(reply: Reply): real
      reads this
    {
      if Usable(reply) then number(reply.raw.value) else 0.0
    }

    function Total(replies: seq<Reply>): real
      reads this
    {
      if replies == [] then 0.0 else Total(replies[..|replies| - 1]) + OnlineUsers(replies[|replies| - 1])
    }

    method GetTotalOnlineUsers(nodes: seq<Uuid>) returns (total: real)
      ensures total ==
              if aborts then 0.0
              else Total(seq(|nodes|, i requires 0 <= i < |nodes| reads this => ReplyTo(i, UsersOnline(nodes[i]))))
    {
      var pipe: seq<Key> := [];
      for i := 0 to |nodes|
        invariant |pipe| == i && forall k :: 0 <= k < i ==> pipe[k] == UsersOnline(nodes[k])
      {
        pipe := pipe + [UsersOnline(nodes[i])];
      }
      var results := Exec(pipe);
      if results.None? {
        return 0.0;
      }
      total := 0.0;
      for i := 0 to |results.value|
        invariant total == Total(results.value[..i])
      {
        assert results.value[..i + 1][..i] == results.value[..i];
        total := total + OnlineUsers(results.value[i]);
      }
      assert results.value[..|results.value|] == results.value;
      assert results.value == seq(|nodes|, i requires 0 <= i < |nodes| reads this => ReplyTo(i, UsersOnline(nodes[i])));
    }

    // ----- what the reads mean

    /** Something other than the empty string is stored. */
    predicate Holds(key: Key)
      reads this
    {
      key in store && store[key] != ""
    }

    /** The single read: each string decoded on its own, a system only of two values that count as true. */
    lemma OneReads(uuid: Uuid)
      ensures var one := GetOne(uuid);
              && one.onlineUsers == (if Holds(UsersOnline(uuid)) then number(store[UsersOnline(uuid)]) else 0.0)
              && one.xrayUptime == (if Holds(XrayUptime(uuid)) then number(store[XrayUptime(uuid)]) else 0.0)
              && one.versions == (if Holds(Versions(uuid)) then parse(store[Versions(uuid)]) else Null)
      ensures match GetOne(uuid).system
              case None =>
                || !Holds(SystemInfo(uuid)) || !Holds(SystemStats(uuid))
                || parse(store[SystemInfo(uuid)]) in {Null, Bool(false), Num(0.0), Str("")}
                || parse(store[SystemStats(uuid)]) in {Null, Bool(false), Num(0.0), Str("")}
              case Some(system) =>
                && Holds(SystemInfo(uuid)) && Holds(SystemStats(uuid))
                && system == System(parse(store[SystemInfo(uuid)]), parse(store[SystemStats(uuid)]))
                && system.info !in {Null, Bool(false), Num(0.0), Str("")}
                && system.stats !in {Null, Bool(false), Num(0.0), Str("")}
    {}

    /** The pipelined read of the node at `i`: five commands from the fifth of `i` on, each usable unless it fails. */
    lemma ManyReads(nodes: seq<Uuid>, i: nat)
      requires i < |nodes|
      ensures var uuid, many, n := nodes[i], FromReplies(RepliesAt(nodes, i)), 5 * i;
              && many.onlineUsers ==
                (if n + 2 !in failing && Holds(UsersOnline(uuid)) then number(store[UsersOnline(uuid)]) else 0.0)
              && many.versions ==
                (if n + 3 !in failing && Holds(Versions(uuid)) then parse(store[Versions(uuid)]) else Null)
              && many.xrayUptime ==
                (if n + 4 !in failing && Holds(XrayUptime(uuid)) then number(store[XrayUptime(uuid)]) else 0.0)
              && many.system ==
                if n !in failing && n + 1 !in failing && Holds(SystemInfo(uuid)) && Holds(SystemStats(uuid))
                then Some(System(parse(store[SystemInfo(uuid)]), parse(store[SystemStats(uuid)]))) else None
    {
      var keys := KeysOf(nodes[i]);
      assert forall k :: 0 <= k < 5 ==> RepliesAt(nodes, i)[k] == ReplyTo(5 * i + k, keys[k]);
    }

    /** The total adds up the numbers of the replies that came and hold one. */
    lemma TotalAddsUp(replies: seq<Reply>, reply: Reply)
      ensures Total([]) == 0.0
      ensures Total(replies + [reply]) ==
              Total(replies) + (
                match reply
                case Failed => 0.0
                case Replied(None) => 0.0
                case Replied(Some(raw)) => if raw == "" then 0.0 else number(raw))
    {
      assert (replies + [reply])[..|replies|] == replies;
    }

    // ----- the pipelined read and the single read

    /** Every listed node is in the result, with the replies at the last place it is listed. */
    lemma {:induction false} HotIsLastReplies(nodes: seq<Uuid>, n: nat, uuid: Uuid)
      requires n <= |nodes|
      ensures uuid in HotOf(nodes, n) <==> uuid in nodes[..n]
      ensures uuid in nodes[..n] ==>
        exists i :: 0 <= i < n && nodes[i] == uuid && uuid !in nodes[i + 1..n]
          && HotOf(nodes, n)[uuid] == FromReplies(RepliesAt(nodes, i))
    {
      if n > 0 {
        HotIsLastReplies(nodes, n - 1, uuid);
        assert nodes[..n] == nodes[..n - 1] + [nodes[n - 1]];
        if nodes[n - 1] == uuid {
          assert uuid !in nodes[n..n];
        } else if uuid in nodes[..n - 1] {
          var i :| 0 <= i < n - 1 && nodes[i] == uuid && uuid !in nodes[i + 1..n - 1]
            && HotOf(nodes, n - 1)[uuid] == FromReplies(RepliesAt(nodes, i));
          assert nodes[i + 1..n] == nodes[i + 1..n - 1] + [nodes[n - 1]];
        }
      }
    }

    /** Both system strings of the node are stored, but one of them decodes to a falsy value. */
    predicate StoresFalsySystem(uuid: Uuid)
      reads this
    {
      var info, stats := Raw(SystemInfo(uuid)), Raw(SystemStats(uuid));
      Present(info) && Present(stats) && !(Truthy(parse(info.value)) && Truthy(parse(stats.value)))
    }

    lemma RepliesGiveOne(nodes: seq<Uuid>, i: nat)
      requires i < |nodes| && failing == {}
      ensures FromReplies(RepliesAt(nodes, i)) == GetOne(nodes[i]) <==> !StoresFalsySystem(nodes[i])
    {
      var five, keys := RepliesAt(nodes, i), KeysOf(nodes[i]);
      assert forall k :: 0 <= k < KEYS_PER_NODE ==> five[k] == Replied(Raw(keys[k]));
    }

    /**
      Without failing commands the pipelined read gives for a listed node what the single read
      gives, unless a system string is stored that decodes to null, false, zero or the empty string.
     */
    lemma ManyIsOne(nodes: seq<Uuid>, uuid: Uuid)
      requires failing == {} && uuid in nodes
      ensures uuid in HotOf(nodes, |nodes|)
      ensures HotOf(nodes, |nodes|)[uuid] == GetOne(uuid) <==> !StoresFalsySystem(uuid)
      ensures StoresFalsySystem(uuid) <==>
              && Holds(SystemInfo(uuid)) && Holds(SystemStats(uuid))
              && (|| parse(store[SystemInfo(uuid)]) in {Null, Bool(false), Num(0.0), Str("")}
                  || parse(store[SystemStats(uuid)]) in {Null, Bool(false), Num(0.0), Str("")})
    {
      assert nodes[..|nodes|] == nodes;
      HotIsLastReplies(nodes, |nodes|, uuid);
      var i :| 0 <= i < |nodes| && nodes[i] == uuid && HotOf(nodes, |nodes|)[uuid] == FromReplies(RepliesAt(nodes, i));
      RepliesGiveOne(nodes, i);
    }

    function SumOverNodes(nodes: seq<Uuid>): real
      reads this
    {
      if nodes == [] then 0.0 else SumOverNodes(nodes[..|nodes| - 1]) + GetOne(nodes[|nodes| - 1]).onlineUsers
    }

    /** The total is the sum of the online users of the single reads over the list. */
    lemma {:induction false} TotalIsTheSum(nodes: seq<Uuid>, replies: seq<Reply>)
      requires failing == {} && |replies| == |nodes|
      requires forall i :: 0 <= i < |nodes| ==> replies[i] == ReplyTo(i, UsersOnline(nodes[i]))
      ensures Total(replies) == SumOverNodes(nodes)
    {
      if nodes != [] {
        var last := |nodes| - 1;
        TotalIsTheSum(nodes[..last], replies[..last]);
        assert replies[last] == Replied(Raw(UsersOnline(nodes[last])));
      }
    }
  }

  /** A stored `null` makes the two reads differ: an object without info against no object. */
  method StoredNullTellsThemApart(stats: string, parse: string -> Value, number: string -> real)
    returns (many: HotCache, one: HotCache)
    requires stats != "" && parse("null") == Null
    ensures many.system.Some? && one.system.None?
  {
    var store := map[SystemInfo("n") := "null", SystemStats("n") := stats];
    var cache := new NodesSystemCache(store, parse, number, false, {});
    var hot := cache.GetMany(["n"]);
    cache.ManyIsOne(["n"], "n");
    many, one := hot["n"], cache.GetOne("n");
    assert cache.HotOf(["n"], 1) == cache.HotOf(["n"], 0)["n" := cache.FromReplies(cache.RepliesAt(["n"], 0))];
  }
}
