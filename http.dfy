/** The request and session objects the views and the middleware see. */
module Http {
  import opened Wrappers
  import Models

  /** The session key under which the order being worked on is remembered. */
  const OrderIdKey: string := "order_id"

  /** `session['order_id'] = id`. */
  function WithOrderId(data: map<string, int>, id: int): (r: map<string, int>)
    ensures OrderIdKey in r && r[OrderIdKey] == id
    ensures forall k :: k != OrderIdKey ==> (k in r <==> k in data)
    ensures forall k :: k != OrderIdKey && k in data ==> r[k] == data[k]
  {
    data[OrderIdKey := id]
  }

  /** `del session['order_id']` with the missing-key error swallowed. */
  function WithoutOrderId(data: map<string, int>): (r: map<string, int>)
    ensures OrderIdKey !in r
    ensures forall k :: k != OrderIdKey ==> (k in r <==> k in data)
    ensures forall k :: k != OrderIdKey && k in data ==> r[k] == data[k]
  {
    data - {OrderIdKey}
  }

  /** Clearing the entry twice is clearing it once; clearing an absent entry changes nothing. */
  lemma WithoutOrderIdIdempotent(data: map<string, int>)
    ensures WithoutOrderId(WithoutOrderId(data)) == WithoutOrderId(data)
    ensures OrderIdKey !in data ==> WithoutOrderId(data) == data
  {
  }

  /** A session store: string keys to the integer values this model keeps in it. */
  class Session {
    var data: map<string, int>

    constructor (data: map<string, int>)
      ensures this.data == data
    {
      this.data := data;
    }
  }

  /** An incoming request: its session, and the `order` attribute the middleware may set. */
  class Request {
    const session: Session
    var order: Attr<Option<Models.Order>>

    constructor (session: Session)
      ensures this.session == session && order == Unset
    {
      this.session := session;
      order := Unset;
    }
  }
}
