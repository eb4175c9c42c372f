/** Shared vocabulary of the model: keys, timestamps, optional values, the
    error replies the controllers produce, and fresh-key generation. */
module Common {

  /** A document key (a MongoDB ObjectId). Keys grow with creation time. */
  type Id = nat

  /** A timestamp in milliseconds since the epoch. */
  type Time = int

  datatype Option<+T> = None | Some(value: T)

  /** A request argument that must parse as an ObjectId: either a key, or a
      string that `isValidObjectId` rejected. */
  datatype Ref = Key(id: Id) | BadRef

  /** The error replies of the controllers, named after their HTTP status. */
  datatype Error =
    | BadRequest(msg: string)
    | NotFound(msg: string)
    | Unauthorized(msg: string)
    | InternalError(msg: string)
      /** An exception thrown by a library call (a failed cast or schema
          validation, a rejected JWT) and passed on to the error middleware. */
    | Thrown(msg: string)

  datatype Result<+T> = Ok(value: T) | Err(error: Error)

  /** A positive integer: a page number or a page size. */
  type Pos = n: nat | n >= 1 witness 1

  /** `msgs.join(sep)`. */
  function Join(msgs: seq<string>, sep: string): (r: string)
    ensures |msgs| == 1 ==> r == msgs[0]
  {
    if msgs == [] then ""
    else if |msgs| == 1 then msgs[0]
    else msgs[0] + sep + Join(msgs[1..], sep)
  }

  /** The largest key of a finite set of keys (0 for the empty set). */
  function MaxKey(keys: set<Id>): (r: Id)
    ensures forall k :: k in keys ==> k <= r
    ensures keys != {} ==> r in keys
  {
    if keys == {} then 0
    else
      MaxExists(keys);
      var m :| m in keys && forall k :: k in keys ==> k <= m;
      m
  }

  lemma MaxExists(keys: set<Id>)
    requires keys != {}
    ensures exists m :: m in keys && forall k :: k in keys ==> k <= m
  {
    var m := MaxOf(keys);
  }

  /** A largest key, found by removing keys one at a time. */
  lemma {:induction false} MaxOf(keys: set<Id>) returns (m: Id)
    requires keys != {}
    ensures m in keys && forall k :: k in keys ==> k <= m
    decreases |keys|
  {
    var x :| x in keys;
    var rest := keys - {x};
    if rest == {} {
      m := x;
      forall k | k in keys
        ensures k <= m
      {
        assert k !in rest;
      }
    } else {
      var top := MaxOf(rest);
      m := if x > top then x else top;
      forall k | k in keys
        ensures k <= m
      {
        if k != x {
          assert k in rest;
        }
      }
    }
  }

  /** The key the store gives a newly inserted document: one that is not in use. */
  function FreshKey(keys: set<Id>): (r: Id)
    ensures r !in keys
    ensures forall k :: k in keys ==> k < r
  {
    MaxKey(keys) + 1
  }

  /** The exception `new ObjectId(s)` throws for a malformed id (the
      library's own text is not modelled). */
  const InvalidObjectIdMsg := "invalid ObjectId"

  /** Every argument of a list parses as an ObjectId. */
  predicate AllKeys(refs: seq<Ref>) {
    forall i :: 0 <= i < |refs| ==> refs[i].Key?
  }

  function KeysOf(refs: seq<Ref>): (ks: seq<Id>)
    requires AllKeys(refs)
    ensures |ks| == |refs|
    ensures forall i :: 0 <= i < |refs| ==> ks[i] == refs[i].id
  {
    if refs == [] then [] else [refs[0].id] + KeysOf(refs[1..])
  }
}
