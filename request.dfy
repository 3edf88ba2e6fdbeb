/** getRequestData of includes/json.php: the required-key check over an
    already-parsed request body. Reading php://input and json_decode are not
    part of this model; the parsed body is the input. */
module Request {
  import opened Php

  /** `isset($data[$key])` on the parsed body. A body that is not an array
      has no keys (string offsets are not part of this model). */
  predicate IssetKey(data: Value, key: string) {
    data.Array? && Isset(data.entries, key)
  }

  /** How getRequestData ends: it returns a value (null included), or the
      declared return type `array|null` rejects the value with a TypeError. */
  datatype Returned = Returned(value: Value) | TypeError

  /** The result getRequestData promises: null when a required key is
      missing or null, otherwise the body itself. */
  function RequestDataResult(data: Value, args: seq<string>): (r: Returned)
    ensures r.Returned? ==> r.value == Null || r.value == data
    ensures r.TypeError? <==> args == [] && !data.Null? && !data.Array?
  {
    assert args != [] && !data.Array? ==> !IssetKey(data, args[0]);
    if exists i :: 0 <= i < |args| && !IssetKey(data, args[i]) then Returned(Null)
    else if data.Null? || data.Array? then Returned(data)
    else TypeError
  }

  method GetRequestData(data: Value, args: seq<string>) returns (r: Returned)
    ensures r == RequestDataResult(data, args)
  {
    var error := false;
    var i := 0;
    while i < |args|
      invariant 0 <= i <= |args|
      invariant error <==> exists j :: 0 <= j < i && !IssetKey(data, args[j])
    {
      error := if error then true else !IssetKey(data, args[i]);
      i := i + 1;
    }
    if error {
      r := Returned(Null);
    } else if data.Null? || data.Array? {
      r := Returned(data);
    } else {
      r := TypeError;
    }
  }

  /** With required keys, the result is null exactly when one of them is
      absent from, or null in, the body; otherwise it is the body unchanged. */
  lemma NullExactlyWhenKeyMissing(data: Value, args: seq<string>)
    requires args != []
    ensures RequestDataResult(data, args) == Returned(Null) <==>
      exists i :: 0 <= i < |args| && !IssetKey(data, args[i])
    ensures RequestDataResult(data, args) != Returned(Null) ==>
      RequestDataResult(data, args) == Returned(data)
  {
    if forall i :: 0 <= i < |args| ==> IssetKey(data, args[i]) {
      assert IssetKey(data, args[0]);
    }
  }

  /** With no required keys the parsed body is returned unchanged, even null;
      only a scalar body is rejected by the return type. */
  lemma NoRequiredKeys(data: Value)
    ensures RequestDataResult(data, []) == if data.Null? || data.Array? then Returned(data) else TypeError
  {
  }

  /** Only the set of required keys matters: their order and repetition do not. */
  lemma RequiredKeysAsSet(data: Value, a: seq<string>, b: seq<string>)
    requires forall k :: k in a <==> k in b
    ensures RequestDataResult(data, a) == RequestDataResult(data, b)
  {
    if exists i :: 0 <= i < |a| && !IssetKey(data, a[i]) {
      var i :| 0 <= i < |a| && !IssetKey(data, a[i]);
      assert a[i] in b;
      var j :| 0 <= j < |b| && b[j] == a[i];
    }
    if exists j :: 0 <= j < |b| && !IssetKey(data, b[j]) {
      var j :| 0 <= j < |b| && !IssetKey(data, b[j]);
      assert b[j] in a;
      var i :| 0 <= i < |a| && a[i] == b[j];
    }
  }
}
