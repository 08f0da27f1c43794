/** The cache of authenticated Vault clients: VaultClientCache of api/v1alpha1/utils/commons.go. */
module ClientCache {
  import opened Basics

  /** What a client is authenticated as. */
  datatype Identity = Identity(
    kubeNamespace: string, serviceAccount: string, path: string, role: string, vaultNamespace: string)

  function CacheKey(id: Identity): string {
    id.kubeNamespace + ":" + id.serviceAccount + ":" + id.path + ":" + id.role + ":" + id.vaultNamespace
  }

  /** If any component contains a colon, it is the auth path. */
  predicate ColonsOnlyInPath(id: Identity) {
    ':' !in id.kubeNamespace && ':' !in id.serviceAccount && ':' !in id.role && ':' !in id.vaultNamespace
  }

  lemma FirstFieldEqual(a: string, b: string, x: string, y: string)
    requires ':' !in a && ':' !in b && a + ":" + x == b + ":" + y
    ensures a == b && x == y
  {
    var s := a + ":" + x;
    assert s[|a|] == ':' && (b + ":" + y)[|b|] == ':';
    assert forall i | 0 <= i < |a| :: s[i] == a[i];
    assert forall i | 0 <= i < |b| :: s[i] == b[i];
    assert a == s[..|a|] && b == s[..|b|];
    assert x == s[|a| + 1..] && y == s[|b| + 1..];
  }

  lemma LastFieldEqual(a: string, b: string, x: string, y: string)
    requires ':' !in x && ':' !in y && a + ":" + x == b + ":" + y
    ensures a == b && x == y
  {
    var s := a + ":" + x;
    assert s[|a|] == ':' && (b + ":" + y)[|b|] == ':';
    assert forall i | |a| < i < |s| :: s[i] == x[i - |a| - 1];
    assert forall i | |b| < i < |s| :: s[i] == y[i - |b| - 1];
    assert a == s[..|a|] && b == s[..|b|];
    assert x == s[|a| + 1..] && y == s[|b| + 1..];
  }

  lemma KeyFromTheLeft(id: Identity)
    ensures CacheKey(id) ==
      id.kubeNamespace + ":" + (id.serviceAccount + ":" + (id.path + ":" + id.role + ":" + id.vaultNamespace))
  {
  }

  /** Identities whose colons are confined to the path have distinct keys. */
  lemma CacheKeyIsInjective(a: Identity, b: Identity)
    requires ColonsOnlyInPath(a) && ColonsOnlyInPath(b) && CacheKey(a) == CacheKey(b)
    ensures a == b
  {
    KeyFromTheLeft(a);
    KeyFromTheLeft(b);
    FirstFieldEqual(a.kubeNamespace, b.kubeNamespace,
      a.serviceAccount + ":" + (a.path + ":" + a.role + ":" + a.vaultNamespace),
      b.serviceAccount + ":" + (b.path + ":" + b.role + ":" + b.vaultNamespace));
    FirstFieldEqual(a.serviceAccount, b.serviceAccount,
      a.path + ":" + a.role + ":" + a.vaultNamespace, b.path + ":" + b.role + ":" + b.vaultNamespace);
    LastFieldEqual(a.path + ":" + a.role, b.path + ":" + b.role, a.vaultNamespace, b.vaultNamespace);
    LastFieldEqual(a.path, b.path, a.role, b.role);
  }

  // ---- When keys collide ----

  predicate HasColon(id: Identity) {
    ':' in id.kubeNamespace || ':' in id.serviceAccount || ':' in id.path || ':' in id.role || ':' in id.vaultNamespace
  }

  /** Some other identity has the same key. */
  ghost predicate Collides(id: Identity) {
    exists other :: other != id && CacheKey(other) == CacheKey(id)
  }

  function Colons(s: string): nat {
    if s == "" then 0 else (if s[0] == ':' then 1 else 0) + Colons(s[1..])
  }

  lemma {:induction false} ColonsOfJoin(a: string, b: string)
    ensures Colons(a + ":" + b) == Colons(a) + 1 + Colons(b)
  {
    if a == "" {
      assert (a + ":" + b)[1..] == b;
    } else {
      assert (a + ":" + b)[1..] == a[1..] + ":" + b;
      ColonsOfJoin(a[1..], b);
    }
  }

  lemma {:induction false} ColonsPositiveIff(s: string)
    ensures Colons(s) > 0 <==> ':' in s
  {
    if s != "" {
      ColonsPositiveIff(s[1..]);
      assert s == [s[0]] + s[1..];
    }
  }

  lemma ColonsOfKey(id: Identity)
    ensures Colons(CacheKey(id)) >= 4
    ensures Colons(CacheKey(id)) == 4 <==> !HasColon(id)
  {
    var key2 := id.kubeNamespace + ":" + id.serviceAccount;
    var key3 := key2 + ":" + id.path;
    var key4 := key3 + ":" + id.role;
    ColonsOfJoin(id.kubeNamespace, id.serviceAccount);
    ColonsOfJoin(key2, id.path);
    ColonsOfJoin(key3, id.role);
    ColonsOfJoin(key4, id.vaultNamespace);
    ColonsPositiveIff(id.kubeNamespace);
    ColonsPositiveIff(id.serviceAccount);
    ColonsPositiveIff(id.path);
    ColonsPositiveIff(id.role);
    ColonsPositiveIff(id.vaultNamespace);
  }

  lemma SplitAtColon(s: string) returns (a: string, b: string)
    requires ':' in s
    ensures s == a + ":" + b && a != s && b != s
  {
    var i :| 0 <= i < |s| && s[i] == ':';
    a, b := s[..i], s[i + 1..];
  }

  lemma Regroup(h: string, a: string, b: string, x: string, t: string)
    ensures h + (a + ":" + b) + ":" + x + t == h + a + ":" + (b + ":" + x) + t
  {
  }

  lemma NeighbourOfTail(id: Identity) returns (other: Identity)
    requires ':' in id.path || ':' in id.role || ':' in id.vaultNamespace
    ensures other != id && CacheKey(other) == CacheKey(id)
  {
    var h, p, r, v := id.kubeNamespace + ":" + id.serviceAccount + ":", id.path, id.role, id.vaultNamespace;
    if ':' in p {
      var a, b := SplitAtColon(p);
      other := id.(path := a, role := b + ":" + r);
      Regroup(h, a, b, r, ":" + v);
    } else if ':' in r {
      var a, b := SplitAtColon(r);
      other := id.(role := a, vaultNamespace := b + ":" + v);
      Regroup(h + p + ":", a, b, v, "");
    } else {
      var a, b := SplitAtColon(v);
      other := id.(role := r + ":" + a, vaultNamespace := b);
      Regroup(h + p + ":", r, a, b, "");
    }
  }

  /** A component with a colon can give a part of itself away to its neighbour. */
  lemma Neighbour(id: Identity) returns (other: Identity)
    requires HasColon(id)
    ensures other != id && CacheKey(other) == CacheKey(id)
  {
    var n, sa, t := id.kubeNamespace, id.serviceAccount, ":" + id.role + ":" + id.vaultNamespace;
    if ':' in n {
      var a, b := SplitAtColon(n);
      other := id.(kubeNamespace := a, serviceAccount := b + ":" + sa);
      Regroup("", a, b, sa, ":" + id.path + t);
    } else if ':' in sa {
      var a, b := SplitAtColon(sa);
      other := id.(serviceAccount := a, path := b + ":" + id.path);
      Regroup(n + ":", a, b, id.path, t);
    } else {
      other := NeighbourOfTail(id);
    }
  }

  /** An identity shares its key with another one exactly if one of its components contains a colon.
      Whoever of the two asks second is handed a client logged in for the other. */
  lemma CollidesIff(id: Identity)
    ensures Collides(id) <==> HasColon(id)
  {
    if HasColon(id) {
      var other := Neighbour(id);
    } else {
      forall other | CacheKey(other) == CacheKey(id)
        ensures other == id
      {
        ColonsOfKey(id);
        ColonsOfKey(other);
        CacheKeyIsInjective(other, id);
      }
    }
  }

  // ---- The cache ----

  /** Who asks for a client: an identity, and the connection to the Vault server that the client is built
      for. The key does not mention the connection. */
  datatype Caller = Caller(id: Identity, connection: string)

  function Key(caller: Caller): string {
    CacheKey(caller.id)
  }

  datatype Operation<Client> =
    | Get(caller: Caller)
    | Put(caller: Caller, client: Client)
    | Delete(caller: Caller)

  /** One operation on the cache as it is, keyed by text: the new contents and what Get answers. */
  function CacheStep<Client>(clients: map<string, Client>, op: Operation<Client>)
    : (map<string, Client>, Option<Client>)
  {
    match op
    case Get(caller) => (clients, if Key(caller) in clients then Some(clients[Key(caller)]) else None)
    case Put(caller, client) => (clients[Key(caller) := client], None)
    case Delete(caller) => (clients - {Key(caller)}, None)
  }

  function Answers<Client>(clients: map<string, Client>, ops: seq<Operation<Client>>): seq<Option<Client>>
    decreases |ops|
  {
    if ops == [] then []
    else
      var (next, answer) := CacheStep(clients, ops[0]);
      [answer] + Answers(next, ops[1..])
  }

  /** Reference meaning: what a client for `caller` is after `ops`, looking back for the latest Put or
      Delete under the very same identity and connection. */
  function Latest<Client>(ops: seq<Operation<Client>>, caller: Caller): Option<Client> {
    if ops == [] then None
    else
      var op := ops[|ops| - 1];
      if op.Put? && op.caller == caller then Some(op.client)
      else if op.Delete? && op.caller == caller then None
      else Latest(ops[..|ops| - 1], caller)
  }

  function Meaning<Client>(past: seq<Operation<Client>>, op: Operation<Client>): Option<Client> {
    if op.Get? then Latest(past, op.caller) else None
  }

  /** The keys tell the callers of a set apart. */
  predicate Separated(callers: set<Caller>) {
    forall a <- callers, b <- callers :: Key(a) == Key(b) ==> a == b
  }

  /** The cache holds, for each caller of the set, the client stored latest and not deleted. */
  ghost predicate Agrees<Client>(callers: set<Caller>, clients: map<string, Client>, past: seq<Operation<Client>>) {
    forall caller <- callers ::
      Latest(past, caller) == if Key(caller) in clients then Some(clients[Key(caller)]) else None
  }

  predicate Among<Client>(callers: set<Caller>, ops: seq<Operation<Client>>) {
    forall i | 0 <= i < |ops| :: ops[i].caller in callers
  }

  lemma StepAgrees<Client>(callers: set<Caller>, clients: map<string, Client>, past: seq<Operation<Client>>,
                           op: Operation<Client>)
    requires Separated(callers) && Agrees(callers, clients, past) && op.caller in callers
    ensures Agrees(callers, CacheStep(clients, op).0, past + [op])
    ensures CacheStep(clients, op).1 == Meaning(past, op)
  {
    assert (past + [op])[..|past|] == past;
  }

  lemma {:induction false} CacheRefinesIdentityMap<Client>(callers: set<Caller>, clients: map<string, Client>,
      past: seq<Operation<Client>>, ops: seq<Operation<Client>>)
    requires Separated(callers) && Agrees(callers, clients, past) && Among(callers, ops)
    ensures |Answers(clients, ops)| == |ops|
    ensures forall i | 0 <= i < |ops| :: Answers(clients, ops)[i] == Meaning(past + ops[..i], ops[i])
    decreases |ops|
  {
    hide Agrees, Separated, Meaning, CacheStep;
    if ops != [] {
      var next := CacheStep(clients, ops[0]).0;
      StepAgrees(callers, clients, past, ops[0]);
      CacheRefinesIdentityMap(callers, next, past + [ops[0]], ops[1..]);
      forall i | 0 <= i < |ops|
        ensures Answers(clients, ops)[i] == Meaning(past + ops[..i], ops[i])
      {
        if i == 0 {
          assert past + ops[..0] == past;
        } else {
          assert past + [ops[0]] + ops[1..][..i - 1] == past + ops[..i];
        }
      }
    }
  }

  /** Starting empty, every Get answers exactly the client that was stored latest under the same
      five-part identity for the same connection, or nothing if it has been deleted since. */
  ghost predicate AnswersRight<Client>(ops: seq<Operation<Client>>) {
    && |Answers(map[], ops)| == |ops|
    && forall i | 0 <= i < |ops| :: Answers(map[], ops)[i] == Meaning(ops[..i], ops[i])
  }

  ghost predicate AlwaysRight<Client(!new)>(callers: set<Caller>) {
    forall ops: seq<Operation<Client>> | Among(callers, ops) :: AnswersRight(ops)
  }

  lemma FreshCacheAgrees<Client>(callers: set<Caller>, ops: seq<Operation<Client>>)
    requires Separated(callers) && Among(callers, ops)
    ensures AnswersRight(ops)
  {
    CacheRefinesIdentityMap(callers, map[], [], ops);
    forall i | 0 <= i < |ops|
      ensures Answers(map[], ops)[i] == Meaning(ops[..i], ops[i])
    {
      assert [] + ops[..i] == ops[..i];
    }
  }

  /** Two callers with one key: what is put for one is handed to the other. */
  lemma SharedKeyIsWrong<Client>(a: Caller, b: Caller, client: Client)
    requires a != b && Key(a) == Key(b)
    ensures Answers(map[], [Put(a, client), Get(b)])[1..] == [Some(client)]
    ensures !AnswersRight([Put(a, client), Get(b)])
  {
    var ops := [Put(a, client), Get(b)];
    assert ops[1..] == [Get(b)] && [Operation<Client>.Get(b)][1..] == [];
    assert ops[..1] == [Put(a, client)] && ops[..1][..0] == [];
    assert Latest(ops[..1], b).None?;
    assert Answers(map[], ops) == [None] + Answers(map[Key(a) := client], [Get(b)]);
    assert Answers(map[Key(a) := client], [Get(b)]) == [Some(client)];
  }

  /** Over the callers of a set, any interleaving of Get, Put and Delete is answered right exactly
      if the keys tell them apart. */
  lemma CacheIsRightIff<Client(!new)>(callers: set<Caller>, client: Client)
    ensures AlwaysRight<Client>(callers) <==> Separated(callers)
  {
    if Separated(callers) {
      forall ops: seq<Operation<Client>> | Among(callers, ops)
        ensures AnswersRight(ops)
      {
        FreshCacheAgrees(callers, ops);
      }
    } else {
      var a, b :| a in callers && b in callers && Key(a) == Key(b) && a != b;
      SharedKeyIsWrong(a, b, client);
      assert Among(callers, [Put(a, client), Get(b)]);
    }
  }

  /** Callers with the same identity use the same connection. */
  predicate OneConnectionEach(callers: set<Caller>) {
    forall a <- callers, b <- callers :: a.id == b.id ==> a.connection == b.connection
  }

  /** Among identities whose colons are confined to the path, it takes one connection for each. */
  lemma PathColonsAreSafeIff(callers: set<Caller>)
    requires forall c <- callers :: ColonsOnlyInPath(c.id)
    ensures Separated(callers) <==> OneConnectionEach(callers)
  {
    if OneConnectionEach(callers) {
      forall a, b | a in callers && b in callers && Key(a) == Key(b)
        ensures a == b
      {
        CacheKeyIsInjective(a.id, b.id);
      }
    }
  }

  /** The code is not told which connection a caller means. */
  class VaultClientCache<Client> {
    var clients: map<string, Client>

    constructor ()
      ensures clients == map[]
    {
      clients := map[];
    }

    method Get(id: Identity, ghost connection: string) returns (client: Option<Client>)
      ensures client == CacheStep(clients, Operation.Get(Caller(id, connection))).1
    {
      var key := CacheKey(id);
      if key in clients {
        return Some(clients[key]);
      }
      return None;
    }

    method Put(id: Identity, ghost connection: string, client: Client)
      modifies this
      ensures clients == CacheStep(old(clients), Operation.Put(Caller(id, connection), client)).0
    {
      clients := clients[CacheKey(id) := client];
    }

    method Delete(id: Identity, ghost connection: string)
      modifies this
      ensures clients == CacheStep(old(clients), Operation<Client>.Delete(Caller(id, connection))).0
    {
      clients := clients - {CacheKey(id)};
    }
  }
}
