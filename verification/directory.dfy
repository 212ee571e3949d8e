/**
 * The identity directory (IAM) as seen by one invocation: the answers its three calls
 * give for the user, and the requests the program sends to it.
 */
module Directory {

  /** `iam.StatusTypeActive`: the only status whose keys are fetched. */
  const ActiveStatus: string := "Active"

  /** `iam.ErrCodeNoSuchEntityException`: the error code for a user the directory does not know. */
  const NoSuchEntityCode: string := "NoSuchEntity"

  datatype Option<T> = None | Some(value: T)

  /** One entry of a `ListSSHPublicKeys` answer: a key id and its status, no key material. */
  datatype KeySummary = KeySummary(id: string, status: string)

  /** What `ListSSHPublicKeys` returns: the key list, an AWS error with its code, or any other error. */
  datatype ListKeysAnswer =
    | KeyList(keys: seq<KeySummary>)
    | AwsError(code: string)
    | OtherError

  /** What `ListGroupsForUser` returns: the user's group names, or an error. */
  datatype ListGroupsAnswer =
    | GroupList(names: seq<string>)
    | GroupsError

  /**
   * The directory's answers for one user name. `bodies` stands in for `GetSSHPublicKey`:
   * a key id it maps is fetched with that body, any other id's fetch fails.
   */
  datatype Answers = Answers(keys: ListKeysAnswer, groups: ListGroupsAnswer, bodies: map<string, string>)

  /** A call the program makes to the directory. */
  datatype Request =
    | ListSSHPublicKeys(user: string)
    | ListGroupsForUser(user: string)
    | GetSSHPublicKey(user: string, keyId: string)

  /** The outcome of `GetSSHPublicKey` for one key id. */
  function FetchBody(bodies: map<string, string>, keyId: string): Option<string>
  {
    if keyId in bodies then Some(bodies[keyId]) else None
  }
}
