/** Session clients and the dynamic tool registry (pkg/client/session.go, pkg/client/tfe_client.go,
    pkg/tools/dynamic_tool.go), as the objects they are. */
module ToolRegistry {
  import opened JsonTree

  /** The shared map of TFE clients by session. */
  class TfeClients<Client> {
    var active: map<string, Client>

    constructor ()
      ensures active == map[]
    {
      active := map[];
    }

    /** `created` is what building a client from the token and address would give now. */
    method Create(id: string, created: Option<Client>) returns (client: Option<Client>)
      modifies this
      ensures client == created
      ensures active == if created.Some? then old(active)[id := created.value] else old(active)
    {
      if created.Some? {
        active := active[id := created.value];
      }
      client := created;
    }

    method FromContext(id: string, created: Option<Client>) returns (client: Option<Client>)
      modifies this
      ensures client == if id in old(active) then Some(old(active)[id]) else created
      ensures active == if id !in old(active) && created.Some? then old(active)[id := created.value] else old(active)
    {
      if id in active {
        return Some(active[id]);
      }
      client := Create(id, created);
    }

    method Delete(id: string)
      modifies this
      ensures active == old(active) - {id}
    {
      active := active - {id};
    }
  }

  /** Who has a client and who is registered, and whether and how often the tools were mounted. */
  datatype Standing = Standing(clients: set<string>, registered: set<string>, mounted: bool, mounts: nat)
  {
    predicate Proceeds(id: string) {
      id in registered || id in clients
    }

    function Register(id: string): Standing {
      this.(registered := registered + {id}, mounted := true, mounts := mounts + if mounted then 0 else 1)
    }

    /** A session that already has a client is left alone, registered or not. */
    function Start(id: string, created: bool): Standing {
      if id in clients || !created then this else this.(clients := clients + {id}).Register(id)
    }

    function End(id: string): Standing {
      this.(clients := clients - {id}, registered := registered - {id})
    }

    /** A call that finds its session with a client but not registered makes up for that. */
    function Call(id: string): Standing {
      if id !in registered && id in clients then Register(id) else this
    }
  }

  class DynamicToolRegistry<Client> {
    const clients: TfeClients<Client>
    var sessionsWithTFE: set<string>
    var tfeToolsRegistered: bool
    /** How often the TFE tools were added to the server. */
    var mounts: nat

    /** The tools are mounted once, at the first registration. */
    ghost predicate Valid()
      reads this
    {
      mounts == (if tfeToolsRegistered then 1 else 0) && (sessionsWithTFE != {} ==> tfeToolsRegistered)
    }

    /** Registered sessions have a client. */
    ghost predicate Consistent()
      reads this, clients
    {
      sessionsWithTFE <= clients.active.Keys
    }

    ghost function Contents(): Standing
      reads this, clients
    {
      Standing(clients.active.Keys, sessionsWithTFE, tfeToolsRegistered, mounts)
    }

    constructor (clients: TfeClients<Client>)
      ensures Valid() && Consistent() && this.clients == clients && sessionsWithTFE == {} && !tfeToolsRegistered
    {
      this.clients, sessionsWithTFE, tfeToolsRegistered, mounts := clients, {}, false, 0;
    }

    /** Registers whatever session it is given; with a client, the registry stays consistent. */
    method RegisterSessionWithTFE(id: string)
      requires Valid()
      modifies this
      ensures Valid() && tfeToolsRegistered && Contents() == old(Contents()).Register(id)
      ensures sessionsWithTFE == old(sessionsWithTFE) + {id}
      ensures Consistent() <==> old(Consistent()) && id in clients.active
    {
      sessionsWithTFE := sessionsWithTFE + {id};
      if !tfeToolsRegistered {
        mounts := mounts + 1;
        tfeToolsRegistered := true;
      }
    }

    method UnregisterSessionWithTFE(id: string)
      requires Valid()
      modifies this`sessionsWithTFE
      ensures Valid() && sessionsWithTFE == old(sessionsWithTFE) - {id}
    {
      sessionsWithTFE := sessionsWithTFE - {id};
    }

    method NewSession(id: string, created: Option<Client>)
      requires Valid()
      modifies this, clients
      ensures Valid() && (old(Consistent()) ==> Consistent())
      ensures Contents() == old(Contents()).Start(id, created.Some?)
      ensures id !in old(clients.active) && created.Some? ==> id in sessionsWithTFE && tfeToolsRegistered
      ensures id in old(clients.active) || created.None? ==> sessionsWithTFE == old(sessionsWithTFE)
      ensures clients.active
        == if id !in old(clients.active) && created.Some? then old(clients.active)[id := created.value]
           else old(clients.active)
    {
      if id in clients.active {
        return;
      }
      var client := clients.Create(id, created);
      if client.Some? {
        RegisterSessionWithTFE(id);
      }
    }

    /** Afterwards the session has neither client nor registration, and its calls are refused. */
    method EndSession(id: string)
      requires Valid()
      modifies this, clients
      ensures Valid() && (old(Consistent()) ==> Consistent())
      ensures Contents() == old(Contents()).End(id) && !Contents().Proceeds(id)
      ensures clients.active == old(clients.active) - {id} && sessionsWithTFE == old(sessionsWithTFE) - {id}
    {
      UnregisterSessionWithTFE(id);
      clients.Delete(id);
    }

    /** The wrapper around every TFE tool: a call proceeds exactly when its session is registered or has a
        client; in a consistent registry, exactly when it has a client. */
    method CheckAvailability(session: Option<string>) returns (proceeds: bool)
      requires Valid()
      modifies this
      ensures Valid() && (old(Consistent()) ==> Consistent())
      ensures proceeds <==> session.Some? && (session.value in old(sessionsWithTFE) || session.value in clients.active)
      ensures old(Consistent()) ==> (proceeds <==> session.Some? && session.value in clients.active)
      ensures Contents() == if session.Some? then old(Contents()).Call(session.value) else old(Contents())
      ensures sessionsWithTFE == old(sessionsWithTFE) + if proceeds then {session.value} else {}
    {
      if session.None? {
        return false;
      }
      var id := session.value;
      if id !in sessionsWithTFE {
        if id !in clients.active {
          return false;
        }
        RegisterSessionWithTFE(id);
      }
      return true;
    }
  }
}
