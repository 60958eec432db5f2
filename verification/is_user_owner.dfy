/**
 * The is-user-owner middleware: an authenticated user may only reach the
 * user record whose id, compared as a number, is their own.
 */
module Ownership {
  import opened Wrappers
  import opened Js
  import opened Http
  import opened ClerkUser

  const NotAuthenticated := "You are not authenticated."
  const NotAuthorized := "You are not authorized to perform this action."

  /**
   * The decision for `ctx.state.user` and the route parameter `ctx.params.id`:
   * no user is unauthorized (before any id is looked at); a missing or empty
   * id passes; otherwise the request passes exactly when `Number` of the two
   * ids are equal, and is forbidden otherwise.
   */
  function IsUserOwner(stateUser: Option<User>, requestedId: Option<string>): (r: Outcome)
    ensures r in {Next, Unauthorized(NotAuthenticated), Forbidden(NotAuthorized)}
    ensures r.Unauthorized? <==> stateUser.None?
    ensures stateUser.Some? && !Truthy(requestedId) ==> r == Next
    ensures r.Forbidden? <==>
              stateUser.Some? && Truthy(requestedId) &&
              !StrictEquals(FromNat(stateUser.value.id), ToNumber(requestedId.value))
  {
    if stateUser.None? then Unauthorized(NotAuthenticated)
    else if !Truthy(requestedId) then Next
    else if !StrictEquals(FromNat(stateUser.value.id), ToNumber(requestedId.value)) then Forbidden(NotAuthorized)
    else Next
  }

  /** A user asking for their own id, written in decimal, passes. */
  lemma OwnIdPasses(u: User)
    ensures IsUserOwner(Some(u), Some(DecimalString(u.id))) == Next
  {
    ToNumberDecimalString(u.id);
  }

  /** A user asking for any other id, written in decimal, is forbidden. */
  lemma OtherIdForbidden(u: User, other: nat)
    requires other != u.id
    ensures IsUserOwner(Some(u), Some(DecimalString(other))) == Forbidden(NotAuthorized)
  {
    ToNumberDecimalString(other);
  }

  /** The comparison is numeric: a zero-prefixed spelling of the id passes. */
  lemma LeadingZeroPasses(u: User)
    requires u.id == 5
    ensures IsUserOwner(Some(u), Some("05")) == Next
  {
    assert "05"[..1] == "0";
    assert AllDigitsIn("05", 10) && DigitsValue("05", 10) == 5;
    assert TrimEnd(TrimStart("05")) == "05";
    ToNumberOfDigits("05", "05");
  }

  /** The comparison is numeric: surrounding white space is ignored. */
  lemma PaddedIdPasses(u: User)
    requires u.id == 5
    ensures IsUserOwner(Some(u), Some(" 5 ")) == Next
  {
    assert " 5 "[1..] == "5 ";
    assert "5 "[..1] == "5";
    assert TrimStart(" 5 ") == "5 ";
    assert TrimEnd("5 ") == "5";
    assert AllDigitsIn("5", 10) && DigitsValue("5", 10) == 5;
    ToNumberOfDigits(" 5 ", "5");
  }

  /** The comparison is numeric: a decimal spelling with a zero fraction passes. */
  lemma FractionalSpellingPasses(u: User)
    requires u.id == 5
    ensures IsUserOwner(Some(u), Some("5.0")) == Next
  {
    assert TrimEnd(TrimStart("5.0")) == "5.0";
    assert IndexOfAny("5.0", {'e', 'E'}) == 3;
    assert "5.0"[..3] == "5.0";
    assert IndexOfAny("5.0", {'.'}) == 1;
    assert "5.0"[..1] == "5" && "5.0"[2..] == "0";
    assert DigitsValue("5", 10) == 5 && DigitsValue("0", 10) == 0;
    assert Mantissa("5.0") == Some(5.0);
    assert Scale(0) == 1.0;
  }

  /** An id that is not a number is NaN, equal to nothing, and so forbidden. */
  lemma WordIdForbidden(u: User)
    ensures IsUserOwner(Some(u), Some("me")) == Forbidden(NotAuthorized)
  {
    assert TrimEnd(TrimStart("me")) == "me";
    assert IndexOfAny("me", {'e', 'E'}) == 1;
    assert "me"[..1] == "m";
    assert IndexOfAny("m", {'.'}) == 1;
    assert !IsDigitIn('m', 10);
    assert Mantissa("m") == None;
    assert ToNumber("me") == NaN;
  }
}
