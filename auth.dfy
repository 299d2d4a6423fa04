/**
 * `get_authentication_method`: runs a command on the coordinator that
 * prints the `auth.type` setting of its `dremio.conf` and cleans the output.
 */
module Auth {
  import opened Common
  import opened Text

  /** The shell command sent to the coordinator. */
  const AuthTypeCommand := "awk -F'\"' '/auth.type:/ {print $2}' /opt/dremio/conf/dremio.conf"

  /** The part of an SSM command invocation that the client reads. */
  datatype Invocation = Invocation(standardOutputContent: string)

  /**
   * The remote-execution service is the parameter `run`: the invocation for
   * a list of commands on an instance, or `None` for a falsy answer.
   */
  function GetAuthenticationMethod(coordinatorId: string, run: (seq<string>, string) -> Option<Invocation>)
    : (r: Option<string>)
    ensures r.Some? <==> run([AuthTypeCommand], coordinatorId).Some?
    ensures r.Some? ==>
      var out := run([AuthTypeCommand], coordinatorId).value.standardOutputContent;
      '\n' !in r.value &&
      (forall x :: x != '\n' ==> multiset(r.value)[x] == multiset(out)[x]) &&
      r.value == Concat(Split(out, '\n'))
  {
    match run([AuthTypeCommand], coordinatorId)
    case None => None
    case Some(res) =>
      var out := res.standardOutputContent;
      RemoveCharKeepsOthers(out, '\n');
      RemoveCharIsConcatOfSplit(out, '\n');
      Some(RemoveChar(out, '\n'))
  }
}
