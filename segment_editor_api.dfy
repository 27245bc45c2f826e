/**
 * The validations of the SegmentEditor API (plugins/SegmentEditor/API.php):
 * the checks `add` and `update` run on their arguments, and `get` /
 * `getSegmentOrFail`, which guard reading one stored segment.
 *
 * The current user's privileges (core/Piwik.php is not part of this
 * model) are a parameter: whether the user is a Super User, the outcome of
 * the access checks that throw with their own message, and the answers of
 * the access predicates. The segment table's answer is a parameter too.
 */
module SegmentEditorApi {
  import opened Wrappers
  import opened Php

  /** What the API may ask about the current user. */
  datatype Access = Access(
    isSuperUser: bool,
    /** `checkUserIsNotAnonymous`. */
    notAnonymous: Outcome,
    /** `checkUserHasSomeViewAccess`. */
    someViewAccess: Outcome,
    /** `checkUserHasViewAccess($idSite)`. */
    viewAccess: Value -> Outcome,
    /** `isUserHasAdminAccess($idSite)`. */
    hasAdminAccess: Value -> bool,
    /** Whether `checkUserIsSuperUserOrTheUser($login)` passes. */
    isSuperUserOrTheUser: Value -> bool)

  const InvalidName := "Invalid name for this custom segment."
  const EnabledAllUsersDenied := "&enabledAllUsers=1 requires Super User access"
  const IdSiteRequired := "idSite is required, unless you are Super User and can create the segment across all websites"
  const IdSiteNotNumeric := "idSite should be a numeric value"
  const AutoArchiveDenied := "To prevent abuse, autoArchive=1 requires Super User or Admin access."
  const IdSegmentNotNumeric := "idSegment should be numeric."
  const NotOwnSegment := "You can only manage your own segments (unless you are Super User)."
  const SegmentDeleted := "This segment is marked as deleted."
  const SegmentNotFound := "Requested segment not found"

  /** `checkSegmentName`: any name but an empty one. */
  function CheckSegmentName(name: Value): (r: Outcome)
    ensures r.Success? <==> !IsEmpty(name)
    ensures r.Failure? ==> r.error == InvalidName
  {
    if IsEmpty(name) then Failure(InvalidName) else Success
  }

  /** `checkEnabledAllUsers`: the flag as an int; a non-zero flag only for a Super User. */
  function CheckEnabledAllUsers(enabledAllUsers: Value, access: Access): (r: Result<int>)
    ensures r.Ok? <==> IntCast(enabledAllUsers) == 0 || access.isSuperUser
    ensures r.Ok? ==> r.value == IntCast(enabledAllUsers)
    ensures r.Err? ==> r.error == EnabledAllUsersDenied
  {
    var flag := IntCast(enabledAllUsers);
    if flag != 0 && !access.isSuperUser then Err(EnabledAllUsersDenied) else Ok(flag)
  }

  /**
   * `checkIdSite`: no site (an empty value) only for a Super User; a
   * given site must be numeric and viewable.
   */
  function CheckIdSite(idSite: Value, access: Access): (r: Outcome)
    ensures IsEmpty(idSite) ==> (r.Success? <==> access.isSuperUser)
    ensures IsEmpty(idSite) && r.Failure? ==> r.error == IdSiteRequired
    ensures !IsEmpty(idSite) && !IsNumeric(idSite) ==> r == Failure(IdSiteNotNumeric)
    ensures !IsEmpty(idSite) && IsNumeric(idSite) ==> r == access.viewAccess(idSite)
  {
    if IsEmpty(idSite) then
      if !access.isSuperUser then Failure(IdSiteRequired) else Success
    else if !IsNumeric(idSite) then Failure(IdSiteNotNumeric)
    else access.viewAccess(idSite)
  }

  /**
   * `checkAutoArchive`: the flag as an int; a non-zero flag needs a Super
   * User when no site is given and admin access to the site otherwise.
   */
  function CheckAutoArchive(autoArchive: Value, idSite: Value, access: Access): (r: Result<int>)
    ensures r.Ok? <==> IntCast(autoArchive) == 0
                       || (IsEmpty(idSite) && access.isSuperUser)
                       || (!IsEmpty(idSite) && access.hasAdminAccess(idSite))
    ensures r.Ok? ==> r.value == IntCast(autoArchive)
    ensures r.Err? ==> r.error == AutoArchiveDenied
  {
    var flag := IntCast(autoArchive);
    if flag != 0 then
      if IsEmpty(idSite) then
        if !access.isSuperUser then Err(AutoArchiveDenied) else Ok(flag)
      else if !access.hasAdminAccess(idSite) then Err(AutoArchiveDenied)
      else Ok(flag)
    else Ok(flag)
  }

  /** The flags `add` stores once its arguments pass. */
  datatype Flags = Flags(enabledAllUsers: int, autoArchive: int)

  /**
   * The argument checks `add` and `update` share, in order: the site, the
   * name, the definition, then the two flags. The definition's check is a
   * parameter, the outcome of building the segment; its error comes back
   * after the "The specified segment is invalid: " prefix. The first
   * failing check's error is the result.
   *
   * Arguments that pass have a name, a valid definition and a site the user
   * may view (or no site, for a Super User); the flags are the arguments
   * cast to int, and a non-zero flag carries the privilege it needs. A
   * Super User who may view and administer the site gets any named segment
   * with a valid definition through.
   */
  function CheckArguments(name: Value, definitionCheck: Outcome, idSite: Value, autoArchive: Value,
                          enabledAllUsers: Value, access: Access): (r: Result<Flags>)
    ensures r.Ok? ==>
      && !IsEmpty(name) && definitionCheck.Success?
      && (IsEmpty(idSite) ==> access.isSuperUser)
      && (!IsEmpty(idSite) ==> IsNumeric(idSite) && access.viewAccess(idSite).Success?)
      && r.value == Flags(IntCast(enabledAllUsers), IntCast(autoArchive))
      && (r.value.enabledAllUsers != 0 ==> access.isSuperUser)
      && (r.value.autoArchive != 0 && !IsEmpty(idSite) ==> access.hasAdminAccess(idSite))
    ensures (&& access.isSuperUser
             && (!IsEmpty(idSite) ==> IsNumeric(idSite) && access.viewAccess(idSite).Success? && access.hasAdminAccess(idSite))
             && !IsEmpty(name) && definitionCheck.Success?)
            ==> r == Ok(Flags(IntCast(enabledAllUsers), IntCast(autoArchive)))
    ensures CheckIdSite(idSite, access).Success? && CheckSegmentName(name).Success? && definitionCheck.Failure? ==>
      r == Err("The specified segment is invalid: " + definitionCheck.error)
  {
    var site := CheckIdSite(idSite, access);
    if site.Failure? then Err(site.error)
    else
      var named := CheckSegmentName(name);
      if named.Failure? then Err(named.error)
      else if definitionCheck.Failure? then Err("The specified segment is invalid: " + definitionCheck.error)
      else
        var enabled := CheckEnabledAllUsers(enabledAllUsers, access);
        if enabled.Err? then Err(enabled.error)
        else
          var archive := CheckAutoArchive(autoArchive, idSite, access);
          if archive.Err? then Err(archive.error)
          else Ok(Flags(enabled.value, archive.value))
  }

  /** The checks of `add` before its write: a signed-in user, then the arguments. */
  function CheckAdd(name: Value, definitionCheck: Outcome, idSite: Value, autoArchive: Value,
                    enabledAllUsers: Value, access: Access): (r: Result<Flags>)
    ensures access.notAnonymous.Failure? ==> r == Err(access.notAnonymous.error)
    ensures access.notAnonymous.Success? ==>
      r == CheckArguments(name, definitionCheck, idSite, autoArchive, enabledAllUsers, access)
  {
    if access.notAnonymous.Failure? then Err(access.notAnonymous.error)
    else CheckArguments(name, definitionCheck, idSite, autoArchive, enabledAllUsers, access)
  }

  /** A stored segment: its owner's login and its deleted flag. */
  datatype SegmentRow = SegmentRow(login: Value, deleted: Value, definition: string)

  /**
   * `get`: after the some-view-access check and a numeric id, the stored
   * segment, or `None` (PHP's false) when there is none; another user's
   * segment is refused to a non-Super User, and a deleted one to everyone.
   */
  function Get(idSegment: Value, access: Access, stored: Option<SegmentRow>): (r: Result<Option<SegmentRow>>)
    ensures r.Ok? <==> access.someViewAccess.Success? && IsNumeric(idSegment)
                       && (stored.Some? ==> access.isSuperUserOrTheUser(stored.value.login) && IsEmpty(stored.value.deleted))
    ensures r.Ok? ==> r.value == stored
    ensures access.someViewAccess.Failure? ==> r == Err(access.someViewAccess.error)
    ensures access.someViewAccess.Success? && !IsNumeric(idSegment) ==> r == Err(IdSegmentNotNumeric)
    ensures access.someViewAccess.Success? && IsNumeric(idSegment) && stored.Some? ==>
      (!access.isSuperUserOrTheUser(stored.value.login) ==> r == Err(NotOwnSegment)) &&
      (access.isSuperUserOrTheUser(stored.value.login) && !IsEmpty(stored.value.deleted) ==> r == Err(SegmentDeleted))
  {
    if access.someViewAccess.Failure? then Err(access.someViewAccess.error)
    else if !IsNumeric(idSegment) then Err(IdSegmentNotNumeric)
    else if stored.None? then Ok(None)
    else if !access.isSuperUserOrTheUser(stored.value.login) then Err(NotOwnSegment)
    else if !IsEmpty(stored.value.deleted) then Err(SegmentDeleted)
    else Ok(stored)
  }

  /**
   * `getSegmentOrFail`: `get`, with a missing segment turned into an
   * error. A segment it hands to `update` or `delete` is the stored one,
   * asked for by a numeric id, the user's own (or the user is a Super User)
   * and not marked deleted.
   */
  function GetSegmentOrFail(idSegment: Value, access: Access, stored: Option<SegmentRow>): (r: Result<SegmentRow>)
    ensures r.Ok? <==> Get(idSegment, access, stored).Ok? && stored.Some?
    ensures Get(idSegment, access, stored) == Ok(None) ==> r == Err(SegmentNotFound)
    ensures r.Ok? ==>
      && stored == Some(r.value)
      && IsNumeric(idSegment)
      && access.isSuperUserOrTheUser(r.value.login)
      && IsEmpty(r.value.deleted)
  {
    var segment := Get(idSegment, access, stored);
    if segment.Err? then Err(segment.error)
    else if segment.value.None? then Err(SegmentNotFound)
    else Ok(segment.value.value)
  }

  /**
   * The checks of `update` before its write: the arguments, then the
   * segment to update. What passes is a valid update of a stored segment
   * the user owns (or any, for a Super User) that is not marked deleted.
   */
  function CheckUpdate(idSegment: Value, name: Value, definitionCheck: Outcome, idSite: Value,
                       autoArchive: Value, enabledAllUsers: Value, access: Access,
                       stored: Option<SegmentRow>): (r: Result<(Flags, SegmentRow)>)
    ensures r.Ok? <==> CheckArguments(name, definitionCheck, idSite, autoArchive, enabledAllUsers, access).Ok?
                       && GetSegmentOrFail(idSegment, access, stored).Ok?
    ensures r.Ok? ==>
      && r.value.0 == Flags(IntCast(enabledAllUsers), IntCast(autoArchive))
      && stored == Some(r.value.1)
      && access.isSuperUserOrTheUser(r.value.1.login)
      && IsEmpty(r.value.1.deleted)
    ensures CheckArguments(name, definitionCheck, idSite, autoArchive, enabledAllUsers, access).Err? ==>
      r == Err(CheckArguments(name, definitionCheck, idSite, autoArchive, enabledAllUsers, access).error)
  {
    var flags := CheckArguments(name, definitionCheck, idSite, autoArchive, enabledAllUsers, access);
    if flags.Err? then Err(flags.error)
    else
      var segment := GetSegmentOrFail(idSegment, access, stored);
      if segment.Err? then Err(segment.error)
      else Ok((flags.value, segment.value))
  }
}
