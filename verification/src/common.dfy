// Shared wrappers: an optional value and an error-or-value result.
module Common {
  datatype Option<T> = None | Some(value: T)
  {
    function GetOr(default: T): T
    {
      if Some? then value else default
    }
  }

  /** The values of a sequence of optional values, when every one of them is present. */
  function AllPresent<T>(rs: seq<Option<T>>): (r: Option<seq<T>>)
    ensures r.Some? <==> forall i | 0 <= i < |rs| :: rs[i].Some?
    ensures r.Some? ==> |r.value| == |rs| && forall i | 0 <= i < |rs| :: rs[i] == Some(r.value[i])
  {
    if rs == [] then Some([])
    else
      var init := rs[..|rs| - 1];
      assert forall i | 0 <= i < |init| :: init[i] == rs[i];
      match AllPresent(init)
      case None => None
      case Some(vs) =>
        match rs[|rs| - 1]
        case None => None
        case Some(v) => Some(vs + [v])
  }

  lemma AllPresentSnoc<T>(rs: seq<Option<T>>, i: nat, vs: seq<T>)
    requires i < |rs| && AllPresent(rs[..i]) == Some(vs) && rs[i].Some?
    ensures AllPresent(rs[..i + 1]) == Some(vs + [rs[i].value])
  {
    assert rs[..i + 1][..i] == rs[..i];
  }

  /** One more element of `s` extends its prefix by that element. */
  lemma PrefixSnoc<T>(s: seq<T>, i: nat)
    requires i < |s|
    ensures s[..i] + [s[i]] == s[..i + 1]
  {
  }

  lemma PrefixWhole<T>(s: seq<T>)
    ensures s[..|s|] == s
  {
  }

  datatype Result<T, E> = Ok(value: T) | Err(error: E)

  /** An HTTP error response: a status code and its detail message. */
  datatype HttpError = HttpError(code: nat, detail: string)
}
