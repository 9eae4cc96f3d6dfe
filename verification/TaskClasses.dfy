/** The task objects: fields and loops of the source, proved to take the steps of `Tasks`. */
module TaskClasses {
  import opened Keys
  import opened Contacts
  import opened Tasks
  import DB = Database

  class NodeLookup {
    var todo: seq<Contact>
    var visited: seq<Contact>
    var outstandingReqs: nat
    var taskFinished: bool
    var queued: bool
    var numNodesRsp: nat
    const ourId: Key
    ghost var ended: nat
    ghost var known: set<Contact>

    ghost function State(): Lookup
      reads this
    {
      Lookup(Queries(todo, visited, outstandingReqs, ended, known), taskFinished, queued, numNodesRsp)
    }

    /** `Task::start(kns, queued)` on a fresh task. */
    constructor Start(contacts: seq<Contact>, queued: bool, ourId: Key)
      ensures State() == LookupStart(contacts, queued) && this.ourId == ourId
    {
      todo, visited, outstandingReqs, taskFinished, numNodesRsp := contacts, [], 0, false, 0;
      this.queued, this.ourId := queued, ourId;
      ended, known := 0, ToSet(contacts);
      new;
      if !queued { Update(); }
    }

    method StartQueued()
      modifies this
      ensures State() == LookupStartQueued(old(State()))
    {
      if queued {
        queued := false;
        Update();
      }
    }

    /** `rpcCall`: the request counts as outstanding whether the server sends or queues it. */
    method RpcCall() returns (ok: bool)
      modifies this`outstandingReqs
      ensures ok == CanDoRequest(old(outstandingReqs))
      ensures outstandingReqs == if ok then old(outstandingReqs) + 1 else old(outstandingReqs)
    {
      if !CanDoRequest(outstandingReqs) { return false; }
      outstandingReqs := outstandingReqs + 1;
      return true;
    }

    method Update()
      modifies this
      ensures State() == LookupUpdate(old(State()))
    {
      while todo != [] && CanDoRequest(outstandingReqs)
        invariant Advance(State().q) == Advance(old(State()).q)
        invariant State() == old(State()).(q := State().q)
        decreases |todo|
      {
        var e := todo[0];
        if e !in visited {
          var _ := RpcCall();
          visited := visited + [e];
        }
        todo := todo[1..];
      }
      if todo == [] && outstandingReqs == 0 && !taskFinished {
        taskFinished := true;
      } else if numNodesRsp > MAX_RESPONSES {
        taskFinished := true;
      }
    }

    method CallFinished(reply: Reply)
      requires !taskFinished
      modifies this
      ensures State() == LookupCallFinished(old(State()), ourId, reply)
    {
      match reply
      case FoundNodes(nodes) =>
        for j := 0 to |nodes|
          invariant State() == old(State()).(q := Learn(old(State()).q, nodes[..j], {ourId}, false))
        {
          assert nodes[..j + 1][..j] == nodes[..j];
          var e := nodes[j];
          if e.id != ourId && e !in todo && e !in visited {
            todo := todo + [e];
            known := known + {e};
          }
        }
        assert nodes[..|nodes|] == nodes;
        numNodesRsp := numNodesRsp + 1;
      case _ =>
    }

    method OnResponse(reply: Reply)
      modifies this
      ensures State() == LookupOnResponse(old(State()), ourId, reply)
    {
      if outstandingReqs > 0 { outstandingReqs, ended := outstandingReqs - 1, ended + 1; }
      if !taskFinished {
        CallFinished(reply);
        if CanDoRequest(outstandingReqs) && !taskFinished { Update(); }
      }
    }

    method OnTimeout()
      modifies this
      ensures State() == LookupOnTimeout(old(State()))
    {
      if outstandingReqs > 0 { outstandingReqs, ended := outstandingReqs - 1, ended + 1; }
      if !taskFinished {
        if CanDoRequest(outstandingReqs) && !taskFinished { Update(); }
      }
    }

    method OnResolverResult(e: Contact)
      modifies this
      ensures State() == old(State()).(q := Resolve(old(State()).q, e, old(taskFinished)))
    {
      todo := todo + [e];
      if !taskFinished { known := known + {e}; }
    }
  }

  class AnnounceTask {
    var todo: seq<Contact>
    var visited: seq<Contact>
    var outstandingReqs: nat
    var taskFinished: bool
    var queued: bool
    var answered: seq<Answer>
    var answeredVisited: seq<Contact>
    var returnedItems: seq<DB.Item>
    const db: DB.Database
    const infoHash: Key
    ghost var ended: nat
    ghost var known: set<Contact>

    ghost function State(): Announce
      reads this
    {
      Announce(Queries(todo, visited, outstandingReqs, ended, known), answered, answeredVisited, taskFinished, queued,
               returnedItems)
    }

    constructor Start(db: DB.Database, infoHash: Key, contacts: seq<Contact>, queued: bool)
      ensures this.db == db && this.infoHash == infoHash && State() == AnnounceStart(contacts, queued)
    {
      todo, visited, outstandingReqs, taskFinished := contacts, [], 0, false;
      answered, answeredVisited, returnedItems := [], [], [];
      this.db, this.infoHash := db, infoHash;
      this.queued := queued;
      ended, known := 0, ToSet(contacts);
      new;
      if !queued { Update(); }
    }

    method StartQueued()
      modifies this
      ensures State() == AnnounceStartQueued(old(State()))
    {
      if queued {
        queued := false;
        Update();
      }
    }

    method RpcCall() returns (ok: bool)
      modifies this`outstandingReqs
      ensures ok == CanDoRequest(old(outstandingReqs))
      ensures outstandingReqs == if ok then old(outstandingReqs) + 1 else old(outstandingReqs)
    {
      if !CanDoRequest(outstandingReqs) { return false; }
      outstandingReqs := outstandingReqs + 1;
      return true;
    }

    method Update()
      modifies this
      ensures State() == AnnounceUpdate(old(State()))
    {
      while answered != [] && CanDoRequest(outstandingReqs)
        invariant SendAnnounces(State()) == SendAnnounces(old(State()))
        decreases |answered|
      {
        var e := answered[0];
        if e.node !in answeredVisited {
          var _ := RpcCall();
          answeredVisited := answeredVisited + [e.node];
        }
        answered := answered[1..];
      }
      ghost var b := State();
      while todo != [] && CanDoRequest(outstandingReqs)
        invariant Advance(State().q) == Advance(b.q)
        invariant State() == b.(q := State().q)
        decreases |todo|
      {
        var e := todo[0];
        if e !in visited {
          var _ := RpcCall();
          visited := visited + [e];
        }
        todo := todo[1..];
      }
      if todo == [] && answered == [] && outstandingReqs == 0 && !taskFinished {
        taskFinished := true;
      } else if |answeredVisited| >= K {
        taskFinished := true;
      }
    }

    /** The items of an answer go into the database, under the hash announced, and to whoever takes them. */
    method CallFinished(reply: Reply)
      modifies this, db`items
      ensures State() == AnnounceCallFinished(old(State()), reply)
      ensures db.items == if reply.PeersValues? then DB.StoredAll(old(db.items), infoHash, reply.items)
                          else old(db.items)
    {
      match reply
      case PeersNodes(nodes) =>
        for i := 0 to |nodes|
          invariant State() == old(State()).(q := Learn(old(State()).q, nodes[..i], {}, true))
          invariant db.items == old(db.items)
        {
          assert nodes[..i + 1][..i] == nodes[..i];
          var e := nodes[i];
          if e !in todo && e !in visited && |todo| < MAX_TODO {
            todo := todo + [e];
            known := known + {e};
          }
        }
        assert nodes[..|nodes|] == nodes;
      case PeersValues(origin, token, items) =>
        StoreItems(items);
        if !Answered(answered, origin) && origin !in answeredVisited {
          answered := answered + [Answer(origin, token)];
        }
      case _ =>
    }

    method StoreItems(items: seq<DB.Item>)
      modifies this`returnedItems, db`items
      ensures returnedItems == old(returnedItems) + items
      ensures db.items == DB.StoredAll(old(db.items), infoHash, items)
    {
      for i := 0 to |items|
        invariant returnedItems == old(returnedItems) + items[..i]
        invariant db.items == DB.StoredAll(old(db.items), infoHash, items[..i])
      {
        assert items[..i + 1][..i] == items[..i] && items[..i + 1] == items[..i] + [items[i]];
        db.StoreItem(infoHash, items[i]);
        returnedItems := returnedItems + [items[i]];
      }
      assert items[..|items|] == items;
    }

    method TakeItem() returns (ok: bool, item: DB.Item)
      modifies this`returnedItems
      ensures ok == (old(returnedItems) != [])
      ensures if ok then old(returnedItems) == [item] + returnedItems else returnedItems == []
    {
      ok, item := returnedItems != [], DB.Item([], 0);
      if ok {
        item := returnedItems[0];
        returnedItems := returnedItems[1..];
      }
    }

    method OnResponse(reply: Reply)
      modifies this, db`items
      ensures State() == AnnounceOnResponse(old(State()), reply)
      ensures db.items == if reply.PeersValues? && !old(taskFinished)
                          then DB.StoredAll(old(db.items), infoHash, reply.items) else old(db.items)
    {
      if outstandingReqs > 0 { outstandingReqs, ended := outstandingReqs - 1, ended + 1; }
      if !taskFinished {
        CallFinished(reply);
        if CanDoRequest(outstandingReqs) && !taskFinished { Update(); }
      }
    }

    method OnTimeout()
      modifies this
      ensures State() == AnnounceOnTimeout(old(State()))
    {
      if outstandingReqs > 0 { outstandingReqs, ended := outstandingReqs - 1, ended + 1; }
      if !taskFinished {
        if CanDoRequest(outstandingReqs) && !taskFinished { Update(); }
      }
    }
  }
}
