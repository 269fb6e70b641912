/** UserValidator: existence lookup and case-insensitive e-mail uniqueness. */
module UserValidator {
  import opened Results
  import opened Domain
  import opened Seqs
  import opened Text

  /** Selects the user stored under userId. */
  function HasId(userId: int): User -> bool {
    (u: User) => u.id == Some(userId)
  }

  /** validateUserExists: the stored user with that id, or NotFound. */
  function ValidateUserExists(users: seq<User>, userId: int): (r: Result<User>)
    ensures r.Err? <==> forall u :: u in users ==> u.id != Some(userId)
    ensures r.Err? ==> r.error == NotFound
    ensures r.Ok? ==> r.value in users && r.value.id == Some(userId)
  {
    var k := FirstIndex(users, HasId(userId));
    if k < 0 then Err(NotFound) else Ok(users[k])
  }

  /** u's e-mail collides with email, and u is not the user being excluded. A null email
      collides with nothing, since equalsIgnoreCase(null) is false. */
  predicate Clashes(u: User, email: Option<string>, excludeId: Option<int>) {
    email.Some? && EqualsIgnoreCase(u.email, email.value) && (excludeId.None? || u.id != excludeId)
  }

  /** The anyMatch scan over all stored users. */
  function AnyClash(users: seq<User>, email: Option<string>, excludeId: Option<int>): (r: bool)
    ensures r <==> exists u :: u in users && Clashes(u, email, excludeId)
    decreases |users|
  {
    if |users| == 0 then false
    else
      assert users == [users[0]] + users[1..];
      Clashes(users[0], email, excludeId) || AnyClash(users[1..], email, excludeId)
  }

  /** validateEmailIsUnique: fails with NotFound (validateEmailIsUnique throws
      EntityNotFoundException) exactly when another stored user already has this e-mail,
      ignoring case; a null e-mail always passes. A stored user's id is read only when that
      user's e-mail matches and excludeId is non-null, so only those ids must be present. */
  function ValidateEmailIsUnique(users: seq<User>, email: Option<string>, excludeId: Option<int>): (r: Outcome)
    requires excludeId.Some? && email.Some? ==>
      forall u :: u in users && EqualsIgnoreCase(u.email, email.value) ==> u.id.Some?
    ensures r.Fail? <==>
      email.Some? && exists u :: u in users && EqualsIgnoreCase(u.email, email.value) && (excludeId.None? || u.id != excludeId)
    ensures r.Fail? ==> r.error == NotFound
  {
    if AnyClash(users, email, excludeId) then Fail(NotFound) else Pass
  }

  /** Two e-mails differing only in letter case collide. */
  lemma CaseVariantIsDuplicate(users: seq<User>, u: User, email: string)
    requires u in users
    requires ToLower(u.email) == ToLower(email)
    ensures ValidateEmailIsUnique(users, Some(email), None) == Fail(NotFound)
  {
    EqualsIgnoreCaseIsLowerEquality(u.email, email);
    assert Clashes(u, Some(email), None);
  }

  /** Excluding a user's own id removes that user from the check: the outcome is the one
      for the store without it. */
  lemma {:induction false} OwnEmailNeverConflicts(before: seq<User>, u: User, after: seq<User>, email: Option<string>)
    requires u.id.Some?
    requires IdsAssigned(before + after)
    ensures IdsAssigned(before + [u] + after)
    ensures ValidateEmailIsUnique(before + [u] + after, email, u.id) == ValidateEmailIsUnique(before + after, email, u.id)
  {
    assert !Clashes(u, email, u.id);
    assert forall v :: v in before + [u] + after <==> v in before + after || v == u;
  }

  /** An empty store accepts every e-mail. */
  lemma EmptyStoreAccepts(email: Option<string>, excludeId: Option<int>)
    ensures ValidateEmailIsUnique([], email, excludeId) == Pass
  {
  }
}
