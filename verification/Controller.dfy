/** The node controller: one poll of the panel, applied to the limiter and the core. */
module Controller {
  import opened Common
  import opened UserDiff
  import V = Veil
  import S = SingCore

  /** A node description as far as the poll reads it; `tag` is the tag built from it. */
  datatype NodeInfo = NodeInfo(tag: string, tls: bool)

  /** One poll: what the panel answered and how the calls it leads to end. */
  datatype Poll = Poll(
    fetched: bool,                      // all three requests succeeded
    node: Option<NodeInfo>,             // None when the node did not change
    users: Option<seq<UserInfo>>,       // None for no list: it did not change, or a JSON answer lists nobody
    alive: Option<map<int, int>>,
    delNodeOk: bool, certOk: bool, addNodeOk: bool, delUsersOk: bool, addUsersOk: bool)

  datatype Node = Node(
    named: bool, nodeSpeed: int, minBytes: int,  // configuration
    tag: string, users: seq<UserInfo>,
    limiter: V.Tables, registered: set<string>,  // `registered`: tags with a limiter connections can find
    core: S.Tables)

  function GetOr<T>(o: Option<T>, default: T): T {
    if o.Some? then o.value else default
  }

  function DeletedUuids(deleted: set<UserInfo>): set<string> {
    set u | u in deleted :: u.uuid
  }

  /** The limiter a reload leaves: rebuilt for an unnamed node, kept for a named one. */
  function ReloadedLimiter(named: bool, limiter: V.Tables, nodeSpeed: int, tag: string, users: seq<UserInfo>,
                           alive: Option<map<int, int>>): V.Tables
  {
    var base := if named then limiter else V.Created(nodeSpeed, tag, users, GetOr(alive, map[]));
    if alive.Some? then base.(alive := alive.value) else base
  }

  /** The core once a node and its users were created in it, as far as the calls go. */
  ghost function Furnished(core: S.Tables, tag: string, minBytes: int, users: seq<UserInfo>,
                           certified: bool, addNodeOk: bool, addUsersOk: bool): S.Tables
    requires S.KeyedTables(core)
  {
    if !certified then core
    else
      var core1 := S.Step(core, S.AddNode(tag, minBytes, addNodeOk));
      if !addNodeOk then core1 else S.Step(core1, S.AddUsers(tag, users, addUsersOk))
  }

  lemma Uncertified(core: S.Tables, tag: string, minBytes: int, users: seq<UserInfo>, addNodeOk: bool, addUsersOk: bool)
    requires S.KeyedTables(core)
    ensures Furnished(core, tag, minBytes, users, false, addNodeOk, addUsersOk) == core
  {
  }

  ghost function Reload(c: Node, p: Poll): Node
    requires S.KeyedTables(c.core) && p.node.Some?
  {
    var users := GetOr(p.users, c.users);
    var core1 := S.Step(c.core, S.DelNode(c.tag, p.delNodeOk));
    if !p.delNodeOk then c.(users := users, core := core1)
    else
      var tag := if c.named then c.tag else p.node.value.tag;
      var certified := p.node.value.tls ==> p.certOk;
      c.(users := users, tag := tag,
         limiter := ReloadedLimiter(c.named, c.limiter, c.nodeSpeed, tag, users, p.alive),
         registered := if c.named then c.registered else c.registered + {tag},
         core := Furnished(core1, tag, c.minBytes, users, certified, p.addNodeOk, p.addUsersOk))
  }

  ghost function ApplyDiff(c: Node, users: seq<UserInfo>, p: Poll): Node
    requires S.KeyedTables(c.core)
  {
    var deleted, added := Deleted(c.users, users), Added(DiffKeys(c.users), users);
    var there := c.tag in c.core.inbounds;
    if deleted != {} && !(p.delUsersOk && there) then c
    else
      var core1 := if deleted == {} then c.core
          else S.Step(c.core, S.DelUsers(c.tag, DeletedUuids(deleted), p.delUsersOk));
      if added != [] && !(p.addUsersOk && there) then c.(core := core1)
      else
        var core2 := if added == [] then core1 else KeyedAdd(core1, c.tag, added, p.addUsersOk);
        c.(core := core2, users := users,
           limiter := if deleted == {} && added == [] then c.limiter else V.Update(c.limiter, c.tag, added, deleted))
  }

  ghost function KeyedAdd(core: S.Tables, tag: string, users: seq<UserInfo>, ok: bool): S.Tables
    requires S.KeyedTables(core)
  {
    S.Step(core, S.AddUsers(tag, users, ok))
  }

  ghost function PollNext(c: Node, p: Poll): Node
    requires S.KeyedTables(c.core)
  {
    if !p.fetched then c
    else if p.node.Some? then Reload(c, p)
    else
      var c1 := if p.alive.Some? then c.(limiter := c.limiter.(alive := p.alive.value)) else c;
      if p.users.None? || p.users.value == [] then c1 else ApplyDiff(c1, p.users.value, p)
  }

  /** The start of a node: what the panel answered first and how the calls it leads to end. */
  datatype Launch = Launch(
    nodeFetched: bool, node: NodeInfo,
    usersFetched: bool, users: seq<UserInfo>,
    aliveFetched: bool, alive: map<int, int>,
    certOk: bool, addNodeOk: bool, addUsersOk: bool)

  predicate Succeeds(l: Launch) {
    && l.nodeFetched && l.usersFetched && l.users != [] && l.aliveFetched
    && (l.node.tls ==> l.certOk) && l.addNodeOk && l.addUsersOk
  }

  ghost function StartNext(c: Node, l: Launch): Node
    requires S.KeyedTables(c.core)
  {
    if !l.nodeFetched then c
    else if !l.usersFetched then c.(users := [])
    else if l.users == [] || !l.aliveFetched then c.(users := l.users)
    else BroughtUp(c.(users := l.users), l)
  }

  /** Limiter, inbound and users of the list the controller holds. */
  ghost function BroughtUp(c: Node, l: Launch): Node
    requires S.KeyedTables(c.core)
  {
    var tag := if c.named then c.tag else l.node.tag;
    var certified := l.node.tls ==> l.certOk;
    c.(tag := tag, registered := c.registered + {tag},
       limiter := V.Created(c.nodeSpeed, tag, c.users, l.alive),
       core := Furnished(c.core, tag, c.minBytes, c.users, certified, l.addNodeOk, l.addUsersOk))
  }

  lemma NoneIffEmpty(users: seq<UserInfo>)
    ensures users == [] <==> (set u | u in users) == {}
  {
    var all := set u | u in users;
    if users != [] {
      assert users[0] in all;
    } else {
      assert forall u :: u !in all;
    }
  }

  // ---------------------------------------------------------------------------
  // The object
  // ---------------------------------------------------------------------------

  /** Where connections look their node's limiter up. */
  class Registry {
    var limiters: map<string, V.Limiter>

    constructor ()
      ensures limiters == map[]
    {
      limiters := map[];
    }
  }

  class Controller {
    const named: bool
    const nodeSpeed: int
    const minBytes: int
    const server: S.Sing
    const registry: Registry
    var tag: string
    var userList: seq<UserInfo>
    var limiter: V.Limiter

    constructor (named: bool, nodeSpeed: int, minBytes: int, server: S.Sing, registry: Registry,
                 tag: string, users: seq<UserInfo>, limiter: V.Limiter)
      ensures this.named == named && this.nodeSpeed == nodeSpeed && this.minBytes == minBytes
      ensures this.server == server && this.registry == registry
      ensures this.tag == tag && userList == users && this.limiter == limiter
    {
      this.named, this.nodeSpeed, this.minBytes := named, nodeSpeed, minBytes;
      this.server, this.registry := server, registry;
      this.tag, userList, this.limiter := tag, users, limiter;
    }

    ghost function State(): Node
      reads this, limiter, server, registry
    {
      Node(named, nodeSpeed, minBytes, tag, userList, limiter.State(), registry.limiters.Keys, server.State())
    }

    /** Builds limiter, inbound and users from the panel's first answers; fails at the first step that fails. */
    method Start(l: Launch) returns (ok: bool)
      requires S.KeyedTables(server.State())
      modifies this, server, registry
      ensures State() == StartNext(old(State()), l)
      ensures ok == Succeeds(l)
      ensures limiter == old(limiter)
              || (fresh(limiter) && tag in registry.limiters && registry.limiters[tag] == limiter)
    {
      hide S.KeyedTables, BroughtUp;
      if !l.nodeFetched {
        return false;
      }
      userList := if l.usersFetched then l.users else [];
      if |userList| == 0 || !l.aliveFetched {
        return false;
      }
      ok := BringUp(l);
    }

    method BringUp(l: Launch) returns (ok: bool)
      requires S.KeyedTables(server.State())
      modifies this`tag, this`limiter, server, registry
      ensures State() == BroughtUp(old(State()), l)
      ensures ok <==> (l.node.tls ==> l.certOk) && l.addNodeOk && l.addUsersOk
      ensures fresh(limiter) && tag in registry.limiters && registry.limiters[tag] == limiter
    {
      hide S.Step, S.KeyedTables, V.Created, Furnished;
      if !named {
        tag := l.node.tag;
      }
      AddLimiter(l.alive);
      Uncertified(server.State(), tag, minBytes, userList, l.addNodeOk, l.addUsersOk);
      if l.node.tls && !l.certOk {
        return false;
      }
      var created;
      created, ok := Furnish(l.addNodeOk, l.addUsersOk);
    }

    /** A new limiter for the held list, registered under the node's tag. */
    method AddLimiter(alive: map<int, int>)
      modifies this`limiter, registry
      ensures limiter.State() == V.Created(nodeSpeed, tag, userList, alive)
      ensures registry.limiters == old(registry.limiters)[tag := limiter] && fresh(limiter)
    {
      limiter := new V.Limiter(nodeSpeed, tag, userList, alive);
      registry.limiters := registry.limiters[tag := limiter];
    }

    /** Creates the node and then its users in the core. */
    method Furnish(addNodeOk: bool, addUsersOk: bool) returns (created: bool, added: bool)
      requires S.KeyedTables(server.State())
      modifies server
      ensures server.State() == Furnished(old(server.State()), tag, minBytes, userList, true, addNodeOk, addUsersOk)
      ensures created == addNodeOk && added == (addNodeOk && addUsersOk)
    {
      hide S.KeyedTables;
      S.StepKeyed(server.State(), S.AddNode(tag, minBytes, addNodeOk));
      created := server.AddNode(tag, minBytes, addNodeOk);
      if !created {
        return false, false;
      }
      var n;
      n, added := server.AddUsers(tag, userList, addUsersOk);
    }

    /** Panics, ending the process, when the core cannot drop the old node or create the new one. */
    method NodeInfoMonitor(p: Poll) returns (panicked: bool)
      requires S.KeyedTables(server.State())
      modifies this, limiter, server, registry
      ensures State() == PollNext(old(State()), p)
      ensures panicked <==> p.fetched && p.node.Some? &&
                            (!p.delNodeOk || (!(p.node.value.tls && !p.certOk) && !p.addNodeOk))
      ensures limiter == old(limiter)
              || (fresh(limiter) && tag in registry.limiters && registry.limiters[tag] == limiter)
    {
      if !p.fetched {
        return false;
      }
      if p.node.Some? {
        panicked := ReloadNode(p);
        return;
      }
      if p.alive.Some? {
        limiter.aliveList := p.alive.value;
      }
      if p.users.None? || |p.users.value| == 0 {
        return false;
      }
      UpdateUsers(p.users.value, p);
      return false;
    }

    method ReloadNode(p: Poll) returns (panicked: bool)
      requires S.KeyedTables(server.State()) && p.node.Some?
      modifies this, limiter, server, registry
      ensures State() == Reload(old(State()), p)
      ensures panicked <==> !p.delNodeOk || (!(p.node.value.tls && !p.certOk) && !p.addNodeOk)
      ensures limiter == old(limiter)
              || (fresh(limiter) && tag in registry.limiters && registry.limiters[tag] == limiter)
    {
      hide S.Step, S.KeyedTables, ReloadedLimiter, Furnished;
      if p.users.Some? {
        userList := p.users.value;
      }
      S.StepKeyed(server.State(), S.DelNode(tag, p.delNodeOk));
      var ok := server.DelNode(tag, p.delNodeOk);
      if !ok {
        return true;
      }
      RenewLimiter(p.node.value.tag, p.alive);
      Uncertified(server.State(), tag, minBytes, userList, p.addNodeOk, p.addUsersOk);
      if p.node.value.tls && !p.certOk {
        return false;
      }
      var created, added := Furnish(p.addNodeOk, p.addUsersOk);
      return !created;
    }

    /** Only an unnamed node gets a new limiter; the entry removed first is the one under the new tag. */
    method RenewLimiter(newTag: string, alive: Option<map<int, int>>)
      modifies this`tag, this`limiter, limiter, registry
      ensures tag == (if named then old(tag) else newTag)
      ensures limiter.State() == ReloadedLimiter(named, old(limiter.State()), nodeSpeed, tag, userList, alive)
      ensures registry.limiters.Keys == if named then old(registry.limiters.Keys)
              else old(registry.limiters.Keys) + {tag}
      ensures limiter == old(limiter)
              || (fresh(limiter) && tag in registry.limiters && registry.limiters[tag] == limiter)
    {
      if !named {
        tag := newTag;
        registry.limiters := registry.limiters - {tag};
        AddLimiter(GetOr(alive, map[]));
      }
      if alive.Some? {
        limiter.aliveList := alive.value;
      }
    }

    method UpdateUsers(users: seq<UserInfo>, p: Poll)
      requires S.KeyedTables(server.State())
      modifies this, limiter, server
      ensures State() == ApplyDiff(old(State()), users, p)
      ensures limiter == old(limiter)
    {
      hide S.Step, S.KeyedTables, V.Update, Deleted, Added;
      var deleted, added := CompareUserList(userList, users);
      ghost var gone := Deleted(userList, users);
      NoneIffEmpty(deleted);
      if |deleted| > 0 {
        assert Uuids(deleted) == DeletedUuids(gone) by {
          assert Uuids(deleted) == DeletedUuids(set u | u in deleted);
        }
        S.StepKeyed(server.State(), S.DelUsers(tag, Uuids(deleted), p.delUsersOk));
        var ok := server.DelUsers(deleted, tag, p.delUsersOk);
        if !ok {
          return;
        }
      }
      if |added| > 0 {
        S.StepKeyed(server.State(), S.AddUsers(tag, added, p.addUsersOk));
        var n, ok := server.AddUsers(tag, added, p.addUsersOk);
        if !ok {
          return;
        }
      }
      if |added| > 0 || |deleted| > 0 {
        limiter.UpdateUser(tag, added, deleted);
      }
      userList := users;
    }
  }
}
