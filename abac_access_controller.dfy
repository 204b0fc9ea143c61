/**
 * `ABACAccessController`: attribute-based access control. A filter gathers
 * attributes of the subject, the resource, the action and the environment
 * and asks a policy whether the request is permitted; rules vote through a
 * `Decision` in which any denial overrides every permit.
 */
module AbacAccessController {
  import opened Common
  import opened Web

  /** A value in one of the attribute maps: a string, the user's group list, the time of day (in seconds), or null. */
  datatype Value = Text(text: string) | GroupList(groups: seq<string>) | TimeOfDay(seconds: int) | Null

  type Attributes = map<string, Value>

  /** `checkPermitted(subject, resource, action, env)` of a concrete policy. */
  type Policy = (Attributes, Attributes, Attributes, Attributes) -> bool

  /** A nullable string as a map value. */
  function TextOrNull(s: Option<string>): (v: Value)
    ensures v.Null? <==> s.None?
    ensures s.Some? ==> v == Text(s.value)
  {
    if s.Some? then Text(s.value) else Null
  }

  /** The subject's attributes: the authenticated user and the groups. */
  function SubjectAttributes(request: Request, groups: Option<seq<string>>): (attrs: Attributes)
    reads request
    ensures attrs.Keys == {"user", "groups"}
    ensures attrs["user"] == TextOrNull(Lookup(request.attributes, "subject"))
    ensures attrs["groups"] == if groups.Some? then GroupList(groups.value) else Null
  {
    map["user" := TextOrNull(Lookup(request.attributes, "subject")),
        "groups" := if groups.Some? then GroupList(groups.value) else Null]
  }

  /** The resource's attributes: the request path and the `:spaceId` route parameter. */
  function ResourceAttributes(pathInfo: string, spaceId: Option<string>): (attrs: Attributes)
    ensures attrs.Keys == {"path", "space"}
    ensures attrs["path"] == Text(pathInfo) && attrs["space"] == TextOrNull(spaceId)
  {
    map["path" := Text(pathInfo), "space" := TextOrNull(spaceId)]
  }

  /** The action's attributes: the HTTP method. */
  function ActionAttributes(request: Request): (attrs: Attributes)
    ensures attrs.Keys == {"method"} && attrs["method"] == Text(request.requestMethod)
  {
    map["method" := Text(request.requestMethod)]
  }

  /** The environment's attributes: the local time of day and the client's address. */
  function EnvironmentAttributes(timeOfDay: int, ip: string): (attrs: Attributes)
    ensures attrs.Keys == {"timeOfDay", "ip"}
    ensures attrs["timeOfDay"] == TimeOfDay(timeOfDay) && attrs["ip"] == Text(ip)
  {
    map["timeOfDay" := TimeOfDay(timeOfDay), "ip" := Text(ip)]
  }

  /**
   * `enforcePolicy`: the request goes on exactly when the policy permits it
   * on the four attribute maps; otherwise `halt(403)`.
   */
  function EnforcePolicy(checkPermitted: Policy, request: Request, pathInfo: string, spaceId: Option<string>,
                         groups: Option<seq<string>>, timeOfDay: int, ip: string): (outcome: Outcome)
    reads request
    ensures outcome == Continue || outcome == Halt(403, "")
    ensures outcome == Continue <==>
      checkPermitted(SubjectAttributes(request, groups), ResourceAttributes(pathInfo, spaceId),
                     ActionAttributes(request), EnvironmentAttributes(timeOfDay, ip))
  {
    var permitted := checkPermitted(SubjectAttributes(request, groups), ResourceAttributes(pathInfo, spaceId),
                                    ActionAttributes(request), EnvironmentAttributes(timeOfDay, ip));
    if !permitted then Halt(403, "") else Continue
  }

  /** A rule's vote on a `Decision`: a call of `deny()` or of `permit()`. */
  datatype Vote = Deny | Permit

  /** Whether a decision that starts as `permitted` is still permitted after the votes, in order. */
  function After(permitted: bool, votes: seq<Vote>): bool
    decreases |votes|
  {
    if votes == [] then permitted
    else After(if votes[0] == Deny then false else permitted, votes[1..])
  }

  /**
   * Deny overrides: a fresh decision ends permitted exactly when no rule
   * denied, whatever the number and order of permits.
   */
  lemma {:induction false} DenyOverrides(permitted: bool, votes: seq<Vote>)
    ensures After(permitted, votes) <==> permitted && Deny !in votes
    decreases |votes|
  {
    if votes != [] {
      DenyOverrides(if votes[0] == Deny then false else permitted, votes[1..]);
      assert votes == [votes[0]] + votes[1..];
    }
  }

  /** The votes can come in any order: the outcome is the same for any rearrangement. */
  lemma OrderIrrelevant(votes: seq<Vote>, reordered: seq<Vote>)
    requires multiset(votes) == multiset(reordered)
    ensures After(true, votes) == After(true, reordered)
  {
    DenyOverrides(true, votes);
    DenyOverrides(true, reordered);
    assert Deny in votes <==> Deny in multiset(votes);
    assert Deny in reordered <==> Deny in multiset(reordered);
  }

  /** `ABACAccessController.Decision`: permitted until some rule denies. */
  class Decision {
    var permit: bool

    constructor ()
      ensures permit
    {
      permit := true;
    }

    /** `deny()`: the decision is denied from now on. */
    method Deny()
      modifies this
      ensures permit == After(old(permit), [Vote.Deny]) && !permit
    {
      permit := false;
    }

    /** `permit()`: does nothing; a permit never undoes a denial. */
    method Permit()
      ensures permit == After(old(permit), [Vote.Permit]) && permit == old(permit)
    {
    }

    function IsPermitted(): (permitted: bool)
      reads this
      ensures permitted == permit
    {
      permit
    }
  }
}
