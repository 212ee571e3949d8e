/**
 * The authorization decision of `main()`: the user-name argument, the user allow-list,
 * the key listing, the lazy group check, and the key output.
 *
 * `Authorize` follows the source step by step (an `allowed` flag set and reset, early
 * exits, a group loop with `break`). `Resolve`, `Expected` and `ExpectedRequests` say
 * declaratively what the invocation must end with and which directory calls it makes;
 * the lemmas at the end state the policy's promises about them.
 */
module Authorizer {
  import opened StringOrder
  import opened AllowList
  import opened Directory
  import opened KeyEmission

  const ExitCodeOk: int := 0
  const ExitCodeError: int := 1

  /** The `allowed.users` and `allowed.groups` lists of the configuration; both empty without a file. */
  datatype Config = Config(users: seq<string>, groups: seq<string>)
  {
    /** Both lists sorted, as start-up leaves them. */
    predicate Loaded()
    {
      Sorted(users) && Sorted(groups)
    }
  }

  /** How the process ends: status 0 after printing `lines`, or status 1 with nothing printed. */
  datatype Outcome = ExitOk(lines: seq<string>) | ExitError

  function ExitCode(outcome: Outcome): int
  {
    if outcome.ExitOk? then ExitCodeOk else ExitCodeError
  }

  /** Where the decision for one user name ends. */
  datatype Verdict =
    | UserNotFound
    | ListingFailed
    | NoKeys
    | GroupListingFailed
    | Denied
    | Allowed(keys: seq<KeySummary>)

  /** Some group the directory reports for the user is on the group allow-list. */
  predicate InAllowedGroup(cfg: Config, names: seq<string>)
  {
    exists g :: g in names && g in cfg.groups
  }

  /** Group membership is asked for: the user has keys, fails the user check, and a group list is configured. */
  predicate GroupsConsulted(cfg: Config, user: string, dir: Answers)
  {
    dir.keys.KeyList? && |dir.keys.keys| > 0 && !Permits(cfg.users, user) && |cfg.groups| > 0
  }

  /** The verdict for `user`, given the configuration and the directory's answers. */
  function Resolve(cfg: Config, user: string, dir: Answers): Verdict
  {
    match dir.keys
    case AwsError(code) => if code == NoSuchEntityCode then UserNotFound else ListingFailed
    case OtherError => ListingFailed
    case KeyList(keys) =>
      if |keys| == 0 then NoKeys
      else if Permits(cfg.users, user) then Allowed(keys)
      else if |cfg.groups| == 0 then Denied
      else
        match dir.groups
        case GroupsError => GroupListingFailed
        case GroupList(names) => if InAllowedGroup(cfg, names) then Allowed(keys) else Denied
  }

  /** The outcome of an invocation with command line `args` (program name first). */
  function Expected(cfg: Config, args: seq<string>, dir: Answers): Outcome
  {
    if |args| < 2 then ExitOk([])
    else
      match Resolve(cfg, args[1], dir)
      case ListingFailed => ExitError
      case GroupListingFailed => ExitError
      case Allowed(keys) => ExitOk(Lines(keys, args[1], dir.bodies))
      case _ => ExitOk([])
  }

  /** The directory calls of an invocation, in the order they are made. */
  function ExpectedRequests(cfg: Config, args: seq<string>, dir: Answers): seq<Request>
  {
    if |args| < 2 then []
    else
      var user := args[1];
      [ListSSHPublicKeys(user)]
      + (if GroupsConsulted(cfg, user, dir) then [ListGroupsForUser(user)] else [])
      + (match Resolve(cfg, user, dir) case Allowed(keys) => Fetches(keys, user) case _ => [])
  }

  /** The scan over the user's groups, stopping at the first one on the allow-list. */
  method AnyGroupAllowed(allowList: seq<string>, names: seq<string>) returns (hit: bool)
    requires Sorted(allowList)
    ensures hit <==> exists g :: g in names && g in allowList
  {
    hit := false;
    for j := 0 to |names|
      invariant !hit
      invariant forall t :: 0 <= t < j ==> names[t] !in allowList
    {
      var member := Contains(allowList, names[j]);
      if member {
        hit := true;
        break;
      }
    }
  }

  /** One invocation of the program, with the directory's answers given as input. */
  method Authorize(cfg: Config, args: seq<string>, dir: Answers) returns (outcome: Outcome, requests: seq<Request>)
    requires cfg.Loaded()
    ensures outcome == Expected(cfg, args, dir)
    ensures requests == ExpectedRequests(cfg, args, dir)
  {
    if |args| < 2 {
      return ExitOk([]), [];
    }
    var userName := args[1];
    var allowed := true;

    if |cfg.users| > 0 {
      allowed := false;
      var listed := Contains(cfg.users, userName);
      if listed {
        allowed := true;
      }
    }

    requests := [ListSSHPublicKeys(userName)];
    if !dir.keys.KeyList? {
      if dir.keys.AwsError? && dir.keys.code == NoSuchEntityCode {
        return ExitOk([]), requests;
      }
      return ExitError, requests;
    }

    var keys := dir.keys.keys;
    if |keys| == 0 {
      return ExitOk([]), requests;
    }

    if !allowed && |cfg.groups| > 0 {
      requests := requests + [ListGroupsForUser(userName)];
      if dir.groups.GroupsError? {
        return ExitError, requests;
      }
      allowed := AnyGroupAllowed(cfg.groups, dir.groups.names);
    }

    if !allowed {
      return ExitOk([]), requests;
    }

    var lines, fetches := EmitKeys(keys, userName, dir.bodies);
    return ExitOk(lines), requests + fetches;
  }

  /** Without a user-name argument the program exits successfully, prints nothing and calls nothing. */
  lemma NoArgumentIsBenign(cfg: Config, args: seq<string>, dir: Answers)
    requires |args| < 2
    ensures Expected(cfg, args, dir) == ExitOk([])
    ensures ExpectedRequests(cfg, args, dir) == []
  {
  }

  /** A user the directory does not know ends successfully with no output, whatever the configuration. */
  lemma UnknownUserIsBenign(cfg: Config, args: seq<string>, dir: Answers)
    requires |args| >= 2
    requires dir.keys == AwsError(NoSuchEntityCode)
    ensures Expected(cfg, args, dir) == ExitOk([])
    ensures ExpectedRequests(cfg, args, dir) == [ListSSHPublicKeys(args[1])]
  {
  }

  /** Any other failure of the key listing is a hard failure (status 1). */
  lemma KeyListingErrorFails(cfg: Config, args: seq<string>, dir: Answers)
    requires |args| >= 2
    requires dir.keys == OtherError || (dir.keys.AwsError? && dir.keys.code != NoSuchEntityCode)
    ensures Expected(cfg, args, dir) == ExitError && ExitCode(Expected(cfg, args, dir)) == ExitCodeError
    ensures ExpectedRequests(cfg, args, dir) == [ListSSHPublicKeys(args[1])]
  {
  }

  /** A user with no keys ends successfully with no output, before any group lookup. */
  lemma NoKeysIsBenign(cfg: Config, args: seq<string>, dir: Answers)
    requires |args| >= 2
    requires dir.keys == KeyList([])
    ensures Expected(cfg, args, dir) == ExitOk([])
    ensures ExpectedRequests(cfg, args, dir) == [ListSSHPublicKeys(args[1])]
  {
  }

  /** The directory calls of an invocation are the key listing, maybe the group listing, then the fetches. */
  lemma RequestsShape(cfg: Config, args: seq<string>, dir: Answers)
    requires |args| >= 2
    ensures var requests := ExpectedRequests(cfg, args, dir);
      |requests| >= 1 && requests[0] == ListSSHPublicKeys(args[1])
      && (ListGroupsForUser(args[1]) in requests <==> GroupsConsulted(cfg, args[1], dir))
      && forall r :: r in requests[1..] && !r.ListGroupsForUser? ==>
           r.GetSSHPublicKey? && r.user == args[1] && Resolve(cfg, args[1], dir).Allowed?
  {
    var user := args[1];
    match Resolve(cfg, user, dir)
    case Allowed(keys) => FetchesExactlyActive(keys, user);
    case _ =>
  }

  /**
   * With no user allow-list every user passes the user check: the groups are never asked for
   * and anyone with keys gets the lines of their active, fetchable keys.
   */
  lemma OpenUserListAllowsEveryoneWithKeys(cfg: Config, args: seq<string>, dir: Answers)
    requires |args| >= 2 && cfg.users == []
    requires dir.keys.KeyList? && |dir.keys.keys| > 0
    ensures Expected(cfg, args, dir) == ExitOk(Lines(dir.keys.keys, args[1], dir.bodies))
    ensures ListGroupsForUser(args[1]) !in ExpectedRequests(cfg, args, dir)
  {
    RequestsShape(cfg, args, dir);
  }

  /**
   * The group listing is requested exactly when the user has keys, a non-empty user allow-list
   * does not list them, and a group allow-list is configured.
   */
  lemma GroupsRequestedOnlyWhenNeeded(cfg: Config, args: seq<string>, dir: Answers)
    requires |args| >= 2
    ensures ListGroupsForUser(args[1]) in ExpectedRequests(cfg, args, dir)
      <==> dir.keys.KeyList? && |dir.keys.keys| > 0
           && |cfg.users| > 0 && args[1] !in cfg.users && |cfg.groups| > 0
  {
    RequestsShape(cfg, args, dir);
  }

  /**
   * Once the groups are consulted, an error there is a hard failure; otherwise the user gets their
   * keys exactly when one of their groups is on the group allow-list, and nothing (status 0) if not.
   */
  lemma GroupMembershipDecides(cfg: Config, args: seq<string>, dir: Answers)
    requires |args| >= 2 && GroupsConsulted(cfg, args[1], dir)
    ensures dir.groups == GroupsError ==> Expected(cfg, args, dir) == ExitError
    ensures dir.groups.GroupList? ==>
      Expected(cfg, args, dir)
        == if exists g :: g in dir.groups.names && g in cfg.groups
           then ExitOk(Lines(dir.keys.keys, args[1], dir.bodies))
           else ExitOk([])
  {
  }

  /** A user refused by both checks ends successfully with no output and no key is fetched. */
  lemma DeniedIsBenign(cfg: Config, args: seq<string>, dir: Answers)
    requires |args| >= 2 && Resolve(cfg, args[1], dir) == Denied
    ensures Expected(cfg, args, dir) == ExitOk([])
    ensures forall r :: r in ExpectedRequests(cfg, args, dir) ==> !r.GetSSHPublicKey?
  {
  }

  /** Only active listed keys are ever fetched, and for an allowed user every active key is. */
  lemma OnlyActiveKeysFetched(cfg: Config, args: seq<string>, dir: Answers, id: string)
    requires |args| >= 2
    ensures GetSSHPublicKey(args[1], id) in ExpectedRequests(cfg, args, dir) <==>
      Resolve(cfg, args[1], dir).Allowed?
      && exists k :: k in dir.keys.keys && IsActive(k) && k.id == id
  {
    var user := args[1];
    match Resolve(cfg, user, dir)
    case Allowed(keys) => FetchesExactlyActive(keys, user);
    case _ =>
  }

  /**
   * An allowed user's invocation exits with status 0 however many fetches fail; it prints one
   * well-formed line per active key whose fetch succeeds, and so at most one per active key.
   */
  lemma AllowedOutput(cfg: Config, args: seq<string>, dir: Answers)
    requires |args| >= 2 && Resolve(cfg, args[1], dir).Allowed?
    ensures Expected(cfg, args, dir).ExitOk?
    ensures var lines := Expected(cfg, args, dir).lines;
            var keys := dir.keys.keys;
      |lines| == |Succeeding(keys, dir.bodies)| <= |Active(keys)|
      && (forall l :: l in lines ==>
            exists k :: k in keys && IsActive(k) && k.id in dir.bodies && l == Line(dir.bodies[k.id], args[1]))
      && (forall k :: k in keys && IsActive(k) && k.id in dir.bodies ==> Line(dir.bodies[k.id], args[1]) in lines)
  {
    LinesCount(dir.keys.keys, args[1], dir.bodies);
    LinesAreSuccessfulFetches(dir.keys.keys, args[1], dir.bodies);
  }
}
