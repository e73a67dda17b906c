/** cast/sender/cast_platform_client.cc in its own form. */
module ClientImpl {
  import opened Common
  import opened SortedKeys
  import opened ClientSpec
  import ClientProofs
  import TrackerSpec

  class CastPlatformClient {
    var alive: bool
    var now: Time
    var nextId: RequestId
    var sockets: map<Id, int>
    var pending: map<Id, seq<Request>>
    ghost var issued: map<RequestId, Time>
    // The callbacks that have run, and the requests given up without that.
    var answers: seq<Answer>
    ghost var dropped: seq<RequestId>

    ghost function State(): Client
      reads this
    {
      Client(alive, now, nextId, sockets, pending, issued, answers, dropped)
    }

    /** What every event keeps. */
    ghost predicate Valid()
      reads this
    {
      ClientProofs.Inv(State())
    }

    constructor (now: Time, nextId: RequestId)
      ensures Valid() && State() == Initial(now, nextId)
    {
      alive, this.now, this.nextId := true, now, nextId;
      sockets, pending, issued, answers, dropped := map[], map[], map[], [], [];
      new;
      ClientProofs.InitialInv(State());
    }

    method RequestAppAvailability(receiver: Id, app: Id) returns (request: Option<RequestId>)
      requires Valid() && alive
      modifies this
      ensures Valid()
      ensures State() == RequestAvailability(old(State()), receiver, app)
      ensures request == if receiver in old(sockets) then Some(old(nextId)) else None
    {
      request := EnterRequest(receiver, app);
      ClientProofs.StepKeepsInv(old(State()), Issue(receiver, app));
    }

    method EnterRequest(receiver: Id, app: Id) returns (request: Option<RequestId>)
      modifies this
      ensures State() == RequestAvailability(old(State()), receiver, app)
      ensures request == if receiver in old(sockets) then Some(old(nextId)) else None
    {
      if receiver !in sockets {
        answers := answers + [Answer(None, app, TrackerSpec.Unknown)];
        return None;
      }
      var id := nextId;
      nextId := nextId + 1;
      issued := issued[id := now];
      var requests := if receiver in pending then pending[receiver] else [];
      pending := pending[receiver := requests + [Request(id, app, now + REQUEST_TIMEOUT)]];
      request := Some(id);
    }

    method AddOrUpdateReceiver(receiver: Id, socket: int)
      requires Valid() && alive
      modifies this
      ensures Valid()
      ensures State() == Step(old(State()), AddOrUpdate(receiver, socket))
    {
      ClientProofs.StepKeepsInv(State(), AddOrUpdate(receiver, socket));
      sockets := sockets[receiver := socket];
    }

    /** Runs the callbacks of a list of requests, with no result. */
    method GiveUpAll(requests: seq<Request>)
      modifies this`answers
      ensures answers == old(answers) + GiveUp(requests)
    {
      for i := 0 to |requests|
        invariant answers == old(answers) + GiveUp(requests[..i])
      {
        assert GiveUp(requests[..i + 1]) ==
          GiveUp(requests[..i]) + [Answer(Some(requests[i].id), requests[i].app, TrackerSpec.Unknown)];
        answers := answers + [Answer(Some(requests[i].id), requests[i].app, TrackerSpec.Unknown)];
      }
      assert requests[..|requests|] == requests;
    }

    method RemoveReceiver(receiver: Id)
      requires Valid() && alive
      modifies this
      ensures Valid()
      ensures State() == ClientSpec.RemoveReceiver(old(State()), receiver)
    {
      ForgetReceiver(receiver);
      ClientProofs.StepKeepsInv(old(State()), Remove(receiver));
    }

    method ForgetReceiver(receiver: Id)
      modifies this
      ensures State() == ClientSpec.RemoveReceiver(old(State()), receiver)
    {
      if receiver in pending {
        GiveUpAll(pending[receiver]);
        pending := pending - {receiver};
      }
      sockets := sockets - {receiver};
    }

    method EraseAt(r: Id, id: RequestId)
      requires r in pending && HasRequest(pending[r], id)
      modifies this`pending
      ensures State() == Erase(old(State()), r, id)
    {
      var i := Find(pending[r], id);
      pending := pending[r := pending[r][..i] + pending[r][i + 1..]];
    }

    method CancelRequest(id: RequestId)
      requires Valid() && alive
      modifies this
      ensures Valid()
      ensures State() == ClientSpec.CancelRequest(old(State()), id)
    {
      DropRequest(id);
      ClientProofs.StepKeepsInv(old(State()), Cancel(id));
    }

    /** The walk over the receivers, up to the first that holds the request. */
    method DropRequest(id: RequestId)
      modifies this
      ensures State() == ClientSpec.CancelRequest(old(State()), id)
    {
      ghost var holders := Holders(State(), id);
      var keys := Sorted(pending.Keys);
      MembersAt(keys, pending.Keys);
      for k := 0 to |keys|
        invariant State() == old(State())
        invariant forall j :: 0 <= j < k ==> keys[j] !in holders
      {
        if HasRequest(pending[keys[k]], id) {
          FirstWanted(keys, k, holders);
          EraseAt(keys[k], id);
          dropped := dropped + [id];
          return;
        }
      }
      NobodyWanted(keys, holders);
    }

    /** The first receiver, in key order, that is reached over the socket. */
    method FindReceiver(socket: int) returns (found: bool, receiver: Id)
      ensures found == (ReceiversOn(State(), socket) != {})
      ensures found ==> receiver == MinKey(ReceiversOn(State(), socket))
    {
      ghost var wanted := ReceiversOn(State(), socket);
      var keys := Sorted(sockets.Keys);
      MembersAt(keys, sockets.Keys);
      found, receiver := false, 0;
      for k := 0 to |keys|
        invariant forall j :: 0 <= j < k ==> keys[j] !in wanted
      {
        if sockets[keys[k]] == socket {
          FirstWanted(keys, k, wanted);
          assert keys[k] in wanted;
          return true, keys[k];
        }
      }
      NobodyWanted(keys, wanted);
    }

    method OnMessage(socket: int, id: RequestId, reply: Reply)
      requires Valid() && alive
      modifies this
      ensures Valid()
      ensures State() == ClientSpec.HandleMessage(old(State()), socket, id, reply)
    {
      ClientProofs.StepKeepsInv(State(), Message(socket, id, reply));
      var found, receiver := FindReceiver(socket);
      if found {
        HandleResponse(receiver, id, reply);
      }
    }

    method HandleResponse(receiver: Id, id: RequestId, reply: Reply)
      requires alive
      modifies this
      ensures State() == ClientSpec.HandleResponse(old(State()), receiver, id, reply)
    {
      if receiver !in pending {
        return;
      }
      if HasRequest(pending[receiver], id) {
        var request := pending[receiver][Find(pending[receiver], id)];
        if request.app in reply {
          answers := answers + [Answer(Some(id), request.app, Meaning(reply[request.app]))];
        } else {
          dropped := dropped + [id];
        }
        EraseAt(receiver, id);
      }
    }

    /** The request's alarm has gone off. */
    method CancelAppAvailabilityRequest(id: RequestId)
      requires Valid() && alive
      modifies this
      ensures Valid()
      ensures State() == HandleTimeout(old(State()), id)
    {
      AnswerTimedOut(id);
      ClientProofs.StepKeepsInv(old(State()), Timeout(id));
    }

    /** The walk over the receivers, which goes on after the request is found. */
    method AnswerTimedOut(id: RequestId)
      requires ClientProofs.PositionsUnique(State())
      modifies this
      ensures State() == HandleTimeout(old(State()), id)
    {
      ghost var c, found := State(), false;
      var keys := Sorted(pending.Keys);
      MembersAt(keys, pending.Keys);
      for k := 0 to |keys|
        invariant found ==> State() == HandleTimeout(c, id) && forall j :: k <= j < |keys| ==> keys[j] !in Holders(c, id)
        invariant !found ==> State() == c && forall j :: 0 <= j < k ==> keys[j] !in Holders(c, id)
        invariant forall j :: k <= j < |keys| ==> keys[j] in pending && pending[keys[j]] == c.pending[keys[j]]
      {
        if HasRequest(pending[keys[k]], id) {
          OnlyHolder(c, keys[k], id);
          assert !found;
          AnswerAndErase(keys[k], id);
          found := true;
        }
      }
      if !found {
        NobodyWanted(keys, Holders(c, id));
      }
    }

    method AnswerAndErase(r: Id, id: RequestId)
      requires r in pending && HasRequest(pending[r], id) && Holders(State(), id) == {r}
      modifies this`answers, this`pending
      ensures State() == HandleTimeout(old(State()), id)
      ensures pending.Keys == old(pending).Keys
      ensures forall s :: s in pending && s != r ==> pending[s] == old(pending)[s]
    {
      var request := pending[r][Find(pending[r], id)];
      answers := answers + [Answer(Some(id), request.app, TrackerSpec.Unknown)];
      EraseAt(r, id);
    }

    static lemma OnlyHolder(c: Client, r: Id, id: RequestId)
      requires ClientProofs.PositionsUnique(c) && r in c.pending && HasRequest(c.pending[r], id)
      ensures Holders(c, id) == {r}
      ensures MinKey(Holders(c, id)) == r
    {
      ClientProofs.FindsPosition(c, r, id);
      forall s | s in Holders(c, id)
        ensures s == r
      {
        ClientProofs.FindsPosition(c, s, id);
      }
      assert r in Holders(c, id);
    }

    static lemma CollectNext(pending: map<Id, seq<Request>>, keys: seq<Id>, k: nat)
      requires k < |keys| && keys[k] in pending
      ensures GiveUp(AllPending(pending, keys[..k + 1])) == GiveUp(AllPending(pending, keys[..k])) + GiveUp(pending[keys[k]])
    {
      assert keys[..k + 1][..k] == keys[..k];
      assert AllPending(pending, keys[..k + 1]) == AllPending(pending, keys[..k]) + pending[keys[k]];
    }

    /** The callbacks of all pending requests, receiver by receiver. */
    method GiveUpEverything()
      modifies this`answers
      ensures answers == old(answers) + GiveUp(AllPending(pending, Sorted(pending.Keys)))
    {
      var keys := Sorted(pending.Keys);
      MembersAt(keys, pending.Keys);
      ghost var given := GiveUp(AllPending(pending, keys[..0]));
      assert given == [];
      for k := 0 to |keys|
        invariant given == GiveUp(AllPending(pending, keys[..k]))
        invariant answers == old(answers) + given
      {
        CollectNext(pending, keys, k);
        ghost var next := GiveUp(AllPending(pending, keys[..k + 1]));
        GiveUpAll(pending[keys[k]]);
        Associative(old(answers), given, GiveUp(pending[keys[k]]));
        given := next;
      }
      assert keys[..|keys|] == keys;
    }

    static lemma Associative(a: seq<Answer>, b: seq<Answer>, c: seq<Answer>)
      ensures (a + b) + c == a + (b + c)
    {
    }

    /** The destructor. */
    method Destroy()
      requires Valid() && alive
      modifies this
      ensures Valid()
      ensures State() == DestroyClient(old(State()))
    {
      ClientProofs.StepKeepsInv(State(), ClientSpec.Destroy);
      GiveUpEverything();
      alive, pending := false, map[];
    }
  }
}
