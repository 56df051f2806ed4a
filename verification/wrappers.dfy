/** Optional values, used for lookups that may miss and for Python's `None`. */
module Wrappers {

  datatype Option<+T> = None | Some(value: T)

  /** A duck-typed attribute of a Python object: either the object has it
      (`hasattr` holds) and it carries a value, or it is absent. */
  datatype Attr<+T> = Absent | Present(value: T) {

    /** `getattr(obj, name, default)` for this one attribute. */
    function GetOr(default: T): T {
      match this
      case Present(v) => v
      case Absent => default
    }
  }

  /** The first attribute of `attrs` that is present, in order, or `Absent`
      when none is. This is the `for attr in ...: if hasattr(...): break`
      search and the nested `getattr(obj, a, getattr(obj, b, ...))` fallback. */
  function FirstPresent<T>(attrs: seq<Attr<T>>): (r: Attr<T>)
    ensures r.Absent? <==> forall i | 0 <= i < |attrs| :: attrs[i].Absent?
    ensures r.Present? ==>
      exists i | 0 <= i < |attrs| :: attrs[i] == r && forall j | 0 <= j < i :: attrs[j].Absent?
  {
    if |attrs| == 0 then Absent
    else if attrs[0].Present? then attrs[0]
    else
      var rest := FirstPresent(attrs[1..]);
      assert forall i | 1 <= i < |attrs| :: attrs[i] == attrs[1..][i - 1];
      rest
  }

  /** `getattr(obj, name, default)` chained over several names. */
  function GetAttrOr<T>(attrs: seq<Attr<T>>, default: T): T {
    FirstPresent(attrs).GetOr(default)
  }
}
