/** Document identifiers. A stored `_id` prints as 24 lower-case hexadecimal
    digits; a route parameter is a raw string that the driver casts to an
    identifier, accepting hexadecimal digits of either case, or rejects with
    a CastError. */
module ObjectIds {
  import opened Common

  type Oid = string

  const OidLength: nat := 24

  predicate IsLowerHex(c: char)
  {
    ('0' <= c <= '9') || ('a' <= c <= 'f')
  }

  predicate IsHex(c: char)
  {
    IsLowerHex(c) || ('A' <= c <= 'F')
  }

  /** The printed form of an identifier, as `_id.toString()` gives it. */
  predicate IsOid(s: string)
  {
    |s| == OidLength && forall k :: 0 <= k < |s| ==> IsLowerHex(s[k])
  }

  /** The digit the driver decodes from `c`, in its printed lower-case form:
      a lower-case digit is kept, an upper-case letter becomes the same letter
      in lower case. */
  function LowerHex(c: char): (d: char)
    requires IsHex(c)
    ensures IsLowerHex(d)
    ensures IsLowerHex(c) ==> d == c
    ensures 'A' <= c <= 'F' ==> d as int - 'a' as int == c as int - 'A' as int
  {
    if 'A' <= c <= 'F' then (c as int - 'A' as int + 'a' as int) as char else c
  }

  function UpperHex(c: char): (d: char)
    requires IsLowerHex(c)
    ensures IsHex(d) && LowerHex(d) == c
    ensures ('a' <= c <= 'f') ==> 'A' <= d <= 'F'
  {
    if 'a' <= c <= 'f' then (c as int - 'a' as int + 'A' as int) as char else c
  }

  /** Casting a route parameter to an identifier; `None` is the driver's CastError. */
  function Cast(raw: string): (r: Option<Oid>)
    ensures r.Some? ==> IsOid(r.value)
    ensures r.Some? <==> |raw| == OidLength && forall k :: 0 <= k < |raw| ==> IsHex(raw[k])
    ensures r.Some? ==> |r.value| == |raw| && forall k :: 0 <= k < |raw| ==> r.value[k] == LowerHex(raw[k])
    ensures IsOid(raw) ==> r == Some(raw)
  {
    if |raw| == OidLength && forall k :: 0 <= k < |raw| ==> IsHex(raw[k]) then
      var id := seq(|raw|, k requires 0 <= k < |raw| => LowerHex(raw[k]));
      assert IsOid(raw) ==> id == raw by {
        if IsOid(raw) {
          assert forall k :: 0 <= k < |raw| ==> id[k] == raw[k];
        }
      }
      Some(id)
    else None
  }

  /** The upper-case spelling of a printed identifier. */
  function Upper(id: Oid): (r: string)
    requires IsOid(id)
    ensures |r| == |id|
    ensures forall k :: 0 <= k < |id| ==> IsHex(r[k]) && LowerHex(r[k]) == id[k]
    ensures forall k :: 0 <= k < |id| && 'a' <= id[k] <= 'f' ==> 'A' <= r[k] <= 'F'
  {
    seq(|id|, k requires 0 <= k < |id| => UpperHex(id[k]))
  }

  /** Every identifier that has a letter among its digits has a second spelling
      that is a different string but casts to the same identifier. */
  lemma UpperSpellingCastsBack(id: Oid, k: nat)
    requires IsOid(id) && k < |id| && 'a' <= id[k] <= 'f'
    ensures Upper(id) != id
    ensures Cast(Upper(id)) == Some(id)
  {
    var up := Upper(id);
    assert up[k] != id[k];
    assert Cast(up).Some?;
    assert Cast(up).value == id;
  }
}
