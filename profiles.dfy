/**
  A stand-in for the Profiles handler the user handler delegates to. Its source is
  not part of this model: profiles are kept by the public id of the user they
  belong to, the store either serves every call or refuses every call, and each
  call is recorded in order so that what the user handler asked of it and when can
  be stated.
 */
module Profiles {
  import opened Wrappers

  datatype Profile = Profile(userID: string, publicID: string)

  datatype ProfileCall = DeleteByUserCall(userID: string) | GetByUserCall(userID: string) | CreateCall(userID: string)

  datatype ProfileBook = ProfileBook(byUser: map<string, Profile>, refusing: bool, calls: seq<ProfileCall>)

  /** The error a refusing profile store gives. */
  const Refused := Foreign("profiles: refused")

  /** DeleteByUser: drops the user's profile. */
  function DeleteByUserSpec(b: ProfileBook, userID: string): (r: (ProfileBook, Outcome))
    ensures r.0.calls == b.calls + [DeleteByUserCall(userID)]
    ensures r.1.Pass? <==> !b.refusing
    ensures r.1.Pass? ==> userID !in r.0.byUser && forall u :: u in b.byUser && u != userID ==> u in r.0.byUser && r.0.byUser[u] == b.byUser[u]
    ensures r.1.Fail? ==> r.0.byUser == b.byUser
  {
    var logged := b.(calls := b.calls + [DeleteByUserCall(userID)]);
    if b.refusing then (logged, Fail(Refused)) else (logged.(byUser := b.byUser - {userID}), Pass)
  }

  /** GetByUser: the user's profile, or no rows when there is none. */
  function GetByUserSpec(b: ProfileBook, userID: string): (r: (ProfileBook, Result<Profile>))
    ensures r.0 == b.(calls := b.calls + [GetByUserCall(userID)])
    ensures r.1.Ok? <==> !b.refusing && userID in b.byUser
    ensures r.1.Ok? ==> r.1.value == b.byUser[userID]
  {
    var logged := b.(calls := b.calls + [GetByUserCall(userID)]);
    if b.refusing then (logged, Err(Refused))
    else if userID !in b.byUser then (logged, Err(NoRows))
    else (logged, Ok(b.byUser[userID]))
  }

  /** Create(user, nil): a new profile with the generated public id `profileID`, stored for the user. */
  function CreateProfileSpec(b: ProfileBook, userID: string, profileID: string): (r: (ProfileBook, Result<Profile>))
    ensures r.0.calls == b.calls + [CreateCall(userID)]
    ensures r.1.Ok? <==> !b.refusing
    ensures r.1.Ok? ==> r.1.value == Profile(userID, profileID) && r.0.byUser == b.byUser[userID := r.1.value]
    ensures r.1.Err? ==> r.0.byUser == b.byUser
  {
    var logged := b.(calls := b.calls + [CreateCall(userID)]);
    if b.refusing then (logged, Err(Refused))
    else (logged.(byUser := b.byUser[userID := Profile(userID, profileID)]), Ok(Profile(userID, profileID)))
  }

  class Profiles {
    var book: ProfileBook

    constructor (book: ProfileBook)
      ensures this.book == book
    {
      this.book := book;
    }

    method DeleteByUser(userID: string) returns (err: Outcome)
      modifies this
      ensures (book, err) == DeleteByUserSpec(old(book), userID)
    {
      var step := DeleteByUserSpec(book, userID);
      book := step.0;
      err := step.1;
    }

    method GetByUser(userID: string) returns (r: Result<Profile>)
      modifies this
      ensures (book, r) == GetByUserSpec(old(book), userID)
    {
      var step := GetByUserSpec(book, userID);
      book := step.0;
      r := step.1;
    }

    method Create(userID: string, profileID: string) returns (r: Result<Profile>)
      modifies this
      ensures (book, r) == CreateProfileSpec(old(book), userID, profileID)
    {
      var step := CreateProfileSpec(book, userID, profileID);
      book := step.0;
      r := step.1;
    }
  }
}
