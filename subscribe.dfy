/**
 * The `subscribe` HTTP handler: three guards evaluated in a fixed order (method,
 * presence of `trainUID`, its format), then an `arrayUnion` update of the
 * `subscriptions` array of the system subscription document.
 */
module SubscribeEndpoint {
  import opened Js
  import opened Http
  import opened TrainId
  import opened FieldValue

  /** The guards of the handler. */
  datatype Check = MethodIsPut | TrainUidPresent | TrainUidWellFormed

  /** The order in which the handler evaluates its guards. */
  const GuardOrder := [MethodIsPut, TrainUidPresent, TrainUidWellFormed]

  /** What each guard demands, read at the level of characters rather than of the regular expression. */
  predicate Passes(c: Check, httpMethod: string, trainUid: Param)
  {
    match c
    case MethodIsPut => httpMethod == "PUT"
    case TrainUidPresent => Truthy(trainUid)
    case TrainUidWellFormed => trainUid.Some? && IsValidTrainUid(trainUid.value)
  }

  /** The response a failing guard sends. */
  function Rejection(c: Check, httpMethod: string): Response
  {
    match c
    case MethodIsPut => Response(403, Text("Cannot " + httpMethod + " this function"))
    case TrainUidPresent => Response(500, Text("no train ID specified"))
    case TrainUidWellFormed => Response(500, Text("Invalid train ID"))
  }

  /** The index of the first check in `checks` that fails, if any. */
  function FirstFailure(checks: seq<Check>, httpMethod: string, trainUid: Param): (r: Option<nat>)
    ensures r.Some? ==> r.value < |checks| && !Passes(checks[r.value], httpMethod, trainUid)
    ensures r.Some? ==> forall j :: 0 <= j < r.value ==> Passes(checks[j], httpMethod, trainUid)
    ensures r.None? ==> forall j :: 0 <= j < |checks| ==> Passes(checks[j], httpMethod, trainUid)
  {
    if checks == [] then None
    else if !Passes(checks[0], httpMethod, trainUid) then Some(0)
    else match FirstFailure(checks[1..], httpMethod, trainUid)
      case None => None
      case Some(k) => Some(k + 1)
  }

  /** Outcome of the guard chain: a response to send, or the train ID to write. */
  datatype Guard = Reject(response: Response) | Admit(trainUid: string)

  /** The guard chain as the handler writes it. */
  function SubscribeGuard(httpMethod: string, trainUid: Param): (g: Guard)
    ensures g.Admit? <==> httpMethod == "PUT" && trainUid.Some? && IsValidTrainUid(trainUid.value)
    ensures g.Admit? ==> trainUid == Some(g.trainUid)
  {
    if httpMethod != "PUT" then Reject(Rejection(MethodIsPut, httpMethod))
    else if trainUid == None || trainUid.value == "" then Reject(Rejection(TrainUidPresent, httpMethod))
    else
      MatchesIffValid(trainUid.value);
      if !Matches(TrainUidPattern, trainUid.value) then Reject(Rejection(TrainUidWellFormed, httpMethod))
      else Admit(trainUid.value)
  }

  /** How the document store answers the `update` call. */
  datatype StoreReply = Committed | Failed(error: string)

  /** The response the handler sends. */
  function SubscribeResponse(httpMethod: string, trainUid: Param, store: StoreReply): Response
  {
    match SubscribeGuard(httpMethod, trainUid)
    case Reject(response) => response
    case Admit(uid) =>
      match store
      case Committed => Response(200, Text("Subscribed to " + uid))
      case Failed(error) => Response(500, Text("Couldn't subscribe: " + error))
  }

  /** The `subscriptions` array after the handler has run. */
  function SubscribeEffect(subscriptions: seq<string>, httpMethod: string, trainUid: Param, store: StoreReply): seq<string>
  {
    match SubscribeGuard(httpMethod, trainUid)
    case Reject(_) => subscriptions
    case Admit(uid) => if store.Committed? then ArrayUnion(subscriptions, [uid]) else subscriptions
  }

  /** The handler's guard chain sends the response of the first guard in `GuardOrder` that fails. */
  lemma GuardIsFirstFailingCheck(httpMethod: string, trainUid: Param)
    ensures FirstFailure(GuardOrder, httpMethod, trainUid).None? ==>
              trainUid.Some? && SubscribeGuard(httpMethod, trainUid) == Admit(trainUid.value)
    ensures FirstFailure(GuardOrder, httpMethod, trainUid).Some? ==>
              SubscribeGuard(httpMethod, trainUid)
              == Reject(Rejection(GuardOrder[FirstFailure(GuardOrder, httpMethod, trainUid).value], httpMethod))
  {
    var f := FirstFailure(GuardOrder, httpMethod, trainUid);
    if f.None? {
      assert Passes(GuardOrder[0], httpMethod, trainUid) && Passes(GuardOrder[2], httpMethod, trainUid);
    } else if f.value == 0 {
      assert httpMethod != "PUT";
    } else if f.value == 1 {
      assert Passes(GuardOrder[0], httpMethod, trainUid) && !Passes(GuardOrder[1], httpMethod, trainUid);
    } else {
      assert Passes(GuardOrder[0], httpMethod, trainUid) && Passes(GuardOrder[1], httpMethod, trainUid);
      assert !Passes(GuardOrder[2], httpMethod, trainUid);
      MatchesIffValid(trainUid.value);
    }
  }

  /** A non-empty ID of the wrong format is answered 500 "Invalid train ID" and the list is unchanged. */
  lemma InvalidTrainUidRejected(subscriptions: seq<string>, trainUid: string, store: StoreReply)
    requires trainUid != "" && !IsValidTrainUid(trainUid)
    ensures SubscribeResponse("PUT", Some(trainUid), store) == Response(500, Text("Invalid train ID"))
    ensures SubscribeEffect(subscriptions, "PUT", Some(trainUid), store) == subscriptions
  {
    MatchesIffValid(trainUid);
  }

  /** The store is written only when all three guards pass and the store commits. */
  lemma StoreWrittenOnlyWhenAdmitted(subscriptions: seq<string>, httpMethod: string, trainUid: Param, store: StoreReply)
    ensures SubscribeEffect(subscriptions, httpMethod, trainUid, store) != subscriptions ==>
              && FirstFailure(GuardOrder, httpMethod, trainUid).None?
              && store.Committed?
              && trainUid.Some? && trainUid.value !in subscriptions
  {
    GuardIsFirstFailingCheck(httpMethod, trainUid);
    if SubscribeGuard(httpMethod, trainUid).Admit? {
      ArrayUnionOne(subscriptions, trainUid.value);
    }
  }

  /** A 200 answer means: the ID is in the list, every earlier entry kept in order, and no duplicate added. */
  lemma SuccessfulSubscribe(subscriptions: seq<string>, httpMethod: string, trainUid: Param, store: StoreReply)
    requires SubscribeResponse(httpMethod, trainUid, store).status == 200
    ensures store.Committed? && trainUid.Some? && IsValidTrainUid(trainUid.value)
    ensures SubscribeResponse(httpMethod, trainUid, store) == Response(200, Text("Subscribed to " + trainUid.value))
    ensures trainUid.value in SubscribeEffect(subscriptions, httpMethod, trainUid, store)
    ensures subscriptions <= SubscribeEffect(subscriptions, httpMethod, trainUid, store)
    ensures SubscribeEffect(subscriptions, httpMethod, trainUid, store)
            == if trainUid.value in subscriptions then subscriptions else subscriptions + [trainUid.value]
    ensures NoDuplicates(subscriptions) ==> NoDuplicates(SubscribeEffect(subscriptions, httpMethod, trainUid, store))
  {
    var uid := trainUid.value;
    ArrayUnionOne(subscriptions, uid);
    if NoDuplicates(subscriptions) {
      ArrayUnionKeepsNoDuplicates(subscriptions, [uid]);
    }
  }

  /** A failing store update is answered 500 and never with a success response. */
  lemma StoreFailureAnswered500(subscriptions: seq<string>, httpMethod: string, trainUid: Param, error: string)
    ensures SubscribeResponse(httpMethod, trainUid, Failed(error)).status != 200
    ensures SubscribeGuard(httpMethod, trainUid).Admit? ==>
              SubscribeResponse(httpMethod, trainUid, Failed(error)) == Response(500, Text("Couldn't subscribe: " + error))
    ensures SubscribeEffect(subscriptions, httpMethod, trainUid, Failed(error)) == subscriptions
  {
  }

  /** Subscribing the same ID twice leaves the list as subscribing once does. */
  lemma SubscribeTwiceIsSubscribeOnce(subscriptions: seq<string>, httpMethod: string, trainUid: Param, store: StoreReply)
    ensures var once := SubscribeEffect(subscriptions, httpMethod, trainUid, store);
            SubscribeEffect(once, httpMethod, trainUid, store) == once
  {
    if SubscribeGuard(httpMethod, trainUid).Admit? && store.Committed? {
      ArrayUnionIdempotent(subscriptions, [trainUid.value]);
    }
  }

  /** Once a subscribe has been committed, a second one for the same ID leaves the list unchanged whatever the store answers. */
  lemma ResubscribeLeavesListUnchanged(subscriptions: seq<string>, httpMethod: string, trainUid: Param, store: StoreReply)
    ensures var once := SubscribeEffect(subscriptions, httpMethod, trainUid, Committed);
            SubscribeEffect(once, httpMethod, trainUid, store) == once
  {
    if SubscribeGuard(httpMethod, trainUid).Admit? {
      ArrayUnionIdempotent(subscriptions, [trainUid.value]);
    }
  }

  /** The system subscription document, with its `subscriptions` array. */
  class SubscriptionDocument {
    var subscriptions: seq<string>

    constructor (initial: seq<string>)
      ensures subscriptions == initial
    {
      subscriptions := initial;
    }

    /** Handles one `subscribe` request; `store` is how the store answers the update, if one is issued. */
    method Subscribe(httpMethod: string, trainUid: Param, store: StoreReply) returns (r: Response)
      modifies this
      ensures r == SubscribeResponse(httpMethod, trainUid, store)
      ensures subscriptions == SubscribeEffect(old(subscriptions), httpMethod, trainUid, store)
      ensures httpMethod != "PUT" ==>
                r == Response(403, Text("Cannot " + httpMethod + " this function")) && subscriptions == old(subscriptions)
      ensures httpMethod == "PUT" && !Truthy(trainUid) ==>
                r == Response(500, Text("no train ID specified")) && subscriptions == old(subscriptions)
      ensures httpMethod == "PUT" && Truthy(trainUid) && !IsValidTrainUid(trainUid.value) ==>
                r == Response(500, Text("Invalid train ID")) && subscriptions == old(subscriptions)
      ensures store.Failed? ==> r.status != 200 && subscriptions == old(subscriptions)
      ensures r.status == 200 ==>
                trainUid.Some? && trainUid.value in subscriptions && old(subscriptions) <= subscriptions
    {
      if httpMethod != "PUT" {
        return Rejection(MethodIsPut, httpMethod);
      }
      if trainUid == None || trainUid.value == "" {
        return Rejection(TrainUidPresent, httpMethod);
      }
      var uid := trainUid.value;
      MatchesIffValid(uid);
      if !Matches(TrainUidPattern, uid) {
        return Rejection(TrainUidWellFormed, httpMethod);
      }
      match store
      case Committed =>
        subscriptions := ArrayUnion(subscriptions, [uid]);
        r := Response(200, Text("Subscribed to " + uid));
      case Failed(error) =>
        r := Response(500, Text("Couldn't subscribe: " + error));
    }
  }
}
