/** Reading the submitted form: `require` (every named field must be there)
    and `optional` (absent fields read as None), and the dict update that
    merges the two. */
module Forms {
  import opened Wrappers

  /** The submitted form fields. request.forms.get(key) is form[key] when the
      field was sent and None otherwise. */
  type Form = map<string, string>

  function Get(form: Form, key: string): (v: Option<string>)
    ensures v.Some? <==> key in form
    ensures v.Some? ==> v.value == form[key]
  {
    if key in form then Some(form[key]) else None
  }

  /** Position of the first key the form lacks, or |keys| when it has them all. */
  function FirstMissing(form: Form, keys: seq<string>): (i: nat)
    ensures i <= |keys|
    ensures forall j :: 0 <= j < i ==> keys[j] in form
    ensures i < |keys| ==> keys[i] !in form
  {
    if keys == [] then 0
    else if keys[0] !in form then 0
    else 1 + FirstMissing(form, keys[1..])
  }

  /** What require(keys) returns: the named fields, or, as the payload of its
      RequireNotSatisfiedError, the first key in list order that is missing. */
  function Required(form: Form, keys: seq<string>): (r: Result<map<string, string>, string>)
    ensures r.Ok? <==> forall j :: 0 <= j < |keys| ==> keys[j] in form
    ensures r.Ok? ==> r.value.Keys == set k | k in keys
    ensures r.Ok? ==> forall k :: k in r.value ==> k in form && r.value[k] == form[k]
    ensures r.Err? ==> r.error !in form
    ensures r.Err? ==> exists i :: 0 <= i < |keys| && keys[i] == r.error
                                && forall j :: 0 <= j < i ==> keys[j] in form
  {
    var i := FirstMissing(form, keys);
    if i < |keys| then Err(keys[i]) else Ok(map k | k in keys :: form[k])
  }

  /** require(keys): walks the keys in order, copying each field, and stops at
      the first one that is missing. */
  method Require(form: Form, keys: seq<string>) returns (r: Result<map<string, string>, string>)
    ensures r == Required(form, keys)
  {
    var params: map<string, string> := map[];
    for i := 0 to |keys|
      invariant forall j :: 0 <= j < i ==> keys[j] in form
      invariant params == map k | k in keys[..i] :: form[k]
    {
      var key := keys[i];
      if key in form {
        assert keys[..i + 1] == keys[..i] + [key];
        params := params[key := form[key]];
      } else {
        return Err(key);
      }
    }
    assert keys[..|keys|] == keys;
    return Ok(params);
  }

  /** What optional(keys) returns: one entry per key, None for an absent field. */
  function Optionals(form: Form, keys: seq<string>): (r: map<string, Option<string>>)
    ensures r.Keys == set k | k in keys
    ensures forall k :: k in r ==> (r[k].None? <==> k !in form)
    ensures forall k :: k in r && k in form ==> r[k] == Some(form[k])
  {
    map k | k in keys :: Get(form, k)
  }

  /** optional(keys): fills the dict one key at a time; it never fails. */
  method Optional(form: Form, keys: seq<string>) returns (params: map<string, Option<string>>)
    ensures params == Optionals(form, keys)
  {
    params := map[];
    for i := 0 to |keys|
      invariant params == map k | k in keys[..i] :: Get(form, k)
    {
      assert keys[..i + 1] == keys[..i] + [keys[i]];
      params := params[keys[i] := Get(form, keys[i])];
    }
    assert keys[..|keys|] == keys;
  }

  /** params.update(optional(...)) on the dict require returned: every entry
      of both, the optional one winning where a key is in both. */
  function Merge(required: map<string, string>, optional: map<string, Option<string>>)
    : (r: map<string, Option<string>>)
    ensures r.Keys == required.Keys + optional.Keys
    ensures forall k :: k in optional ==> r[k] == optional[k]
    ensures forall k :: k in required && k !in optional ==> r[k] == Some(required[k])
  {
    (map k | k in required :: Some(required[k])) + optional
  }
}
