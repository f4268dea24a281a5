/** The external version-control tool, seen from the program: the argument
    lists it is started with (the program name is always `git`), and a small
    abstract model of the global settings those arguments read and write. The
    abstract model is not part of the program; it gives the command lists a
    meaning so that their effect can be stated. */
module Git {
  import opened Optional

  /** The arguments after `git`. */
  type GitArgs = seq<string>

  function SetUserName(value: string): GitArgs {
    ["config", "--global", "user.name", value]
  }

  function SetUserEmail(value: string): GitArgs {
    ["config", "--global", "user.email", value]
  }

  function SetOriginUrl(url: string): GitArgs {
    ["remote", "set-url", "origin", url]
  }

  const GetUserName: GitArgs := ["config", "--global", "user.name"]

  const GetUserEmail: GitArgs := ["config", "--global", "user.email"]

  /** The settings the commands above touch: the global user name and e-mail,
      and the URL of the current repository's `origin` remote (absent when
      there is no such remote). */
  datatype GitState = GitState(userName: Option<string>, userEmail: Option<string>, origin: Option<string>)

  /** The effect of one invocation. `remote set-url` fails, changing nothing,
      when there is no `origin`; anything else leaves the settings alone. */
  function Run(g: GitState, args: GitArgs): GitState {
    if |args| == 4 && args[..3] == ["config", "--global", "user.name"] then
      g.(userName := Some(args[3]))
    else if |args| == 4 && args[..3] == ["config", "--global", "user.email"] then
      g.(userEmail := Some(args[3]))
    else if |args| == 4 && args[..3] == ["remote", "set-url", "origin"] && g.origin.Some? then
      g.(origin := Some(args[3]))
    else
      g
  }

  /** Invocations run one after another, in order. */
  function RunAll(g: GitState, plan: seq<GitArgs>): GitState
    decreases |plan|
  {
    if plan == [] then g else RunAll(Run(g, plan[0]), plan[1..])
  }

  /** What a reading invocation prints: the value and a line break, or nothing
      when the setting is absent. */
  function Output(g: GitState, args: GitArgs): string {
    var value :=
      if args == GetUserName then g.userName
      else if args == GetUserEmail then g.userEmail
      else None;
    match value
    case Some(v) => v + "\n"
    case None => ""
  }

  /** Some invocation of the plan addresses a remote. */
  predicate TouchesOrigin(plan: seq<GitArgs>) {
    exists i :: 0 <= i < |plan| && |plan[i]| > 0 && plan[i][0] == "remote"
  }
}
