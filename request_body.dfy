/**
 * A parsed request body: its keys in the order `Object.keys` returns them, each with the
 * string value the body parser gave it.
 */
module RequestBody {
  import opened Wrappers

  type Body = seq<(string, string)>

  /** `Object.keys(body)[i]`: the i-th key, or `undefined` past the end. */
  function KeyAt(body: Body, i: nat): Option<string> {
    if i < |body| then Some(body[i].0) else None
  }

  /** The body has the key somewhere, at any position. */
  predicate HasKey(body: Body, key: string) {
    exists i :: 0 <= i < |body| && body[i].0 == key
  }

  /**
   * `body[key]` as destructuring reads it: the value under the first occurrence of the
   * key, `undefined` if absent. (A parsed body never repeats a key; taking the first one
   * makes the model exact for any list.)
   */
  function Lookup(body: Body, key: string): (v: Option<string>)
    ensures v.Some? <==> HasKey(body, key)
    ensures v.Some? ==> exists i :: 0 <= i < |body| && body[i] == (key, v.value) &&
                                   forall j :: 0 <= j < i ==> body[j].0 != key
  {
    if |body| == 0 then None
    else if body[0].0 == key then Some(body[0].1)
    else
      var v := Lookup(body[1..], key);
      assert forall i :: 0 <= i < |body[1..]| ==> body[1..][i] == body[i + 1];
      v
  }

  /** Key 0 is k0 and key 1 is k1: the positional test the handlers make. */
  predicate FirstKeysAre(body: Body, k0: string, k1: string) {
    |body| >= 2 && body[0].0 == k0 && body[1].0 == k1
  }

  /**
   * The handlers' test `Object.keys(body)[0] === k0 && Object.keys(body)[1] === k1`
   * holds exactly when key 0 is k0 and key 1 is k1; a body shorter than two keys fails it.
   */
  lemma KeysAtPositions(body: Body, k0: string, k1: string)
    ensures KeyAt(body, 0) == Some(k0) && KeyAt(body, 1) == Some(k1) <==> FirstKeysAre(body, k0, k1)
    ensures |body| < 2 ==> KeyAt(body, 1) == None
  {
  }

  /** With the first two keys fixed, reading them by name gives the first two values. */
  lemma FirstKeysLookup(body: Body, k0: string, k1: string)
    requires FirstKeysAre(body, k0, k1) && k0 != k1
    ensures Lookup(body, k0) == Some(body[0].1)
    ensures Lookup(body, k1) == Some(body[1].1)
  {
  }

  /** The positional test implies both keys are present... */
  lemma FirstKeysArePresent(body: Body, k0: string, k1: string)
    requires FirstKeysAre(body, k0, k1)
    ensures HasKey(body, k0) && HasKey(body, k1)
  {
  }

  /** ...but presence does not pass it: the same two keys in the other order fail. */
  lemma PresenceIsNotPosition(k0: string, k1: string, v0: string, v1: string)
    requires k0 != k1
    ensures var body := [(k1, v1), (k0, v0)];
      HasKey(body, k0) && HasKey(body, k1) && !FirstKeysAre(body, k0, k1)
  {
    var body := [(k1, v1), (k0, v0)];
    assert body[1].0 == k0 && body[0].0 == k1;
  }
}
