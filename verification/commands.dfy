/** The command handlers of the profile manager, each a pure function of the
    loaded store, the listing order of its keys (where the handler lists them)
    and the lines typed at its prompts. A handler returns what it would write
    back to the profile file and the git invocations it would make. */
module Commands {
  import opened Optional
  import opened Text
  import opened Profiles
  import opened Prompt
  import opened Git

  /** The message a handler ends with. `AwaitingSelection` stands for the
      selection loop still prompting when the given input is used up. */
  datatype Report =
    | NoProfilesFound
    | ProfileAdded(key: string)
    | SwitchedTo(key: string)
    | ProfileRemoved(key: string)
    | AllRemoved
    | OperationCanceled
    | AwaitingSelection

  /** One command invocation: its final message, the store it saves (if it
      saves at all), the git invocations it makes, and the input it leaves unread. */
  datatype Outcome = Outcome(report: Report, saved: Option<Store>, commands: seq<GitArgs>, rest: Input)

  /** The profile file's contents once the invocation has finished. */
  function StoreAfter(store: Store, o: Outcome): Store {
    o.saved.GetOr(store)
  }

  /** `after` is `store` with the entry under `key` set to `p` (inserted or
      overwritten) and every other entry as it was. */
  predicate InsertsOnly(store: Store, key: string, p: Profile, after: Store) {
    && key in after && after[key] == p
    && after.Keys == store.Keys + {key}
    && forall k :: k in store && k != key ==> after[k] == store[k]
  }

  /** `o` reports adding `p` and saves `store` with `p` under its own name. */
  predicate SavesEntry(store: Store, o: Outcome, p: Profile) {
    && o.report == ProfileAdded(p.profileName)
    && o.saved.Some?
    && InsertsOnly(store, p.profileName, p, o.saved.value)
    && o.commands == []
  }

  lemma LineTrimmed(inp: Input, i: nat)
    ensures Trimmed(Line(inp, i))
  {
    if i < |inp| {
      TrimSpec(inp[i]);
    }
  }

  /** Writing a profile whose fields are all trimmed under its own name keeps a
      well-formed store well-formed. */
  lemma InsertKeepsWellFormed(store: Store, p: Profile, after: Store)
    requires WellFormed(store) && FieldsTrimmed(p)
    requires InsertsOnly(store, p.profileName, p, after)
    ensures WellFormed(after)
  {
  }

  /** `add_custom_profile`: reads user name, e-mail and remote URL, then stores
      them under `key`, overwriting any entry already there. */
  function AddCustom(store: Store, key: string, inp: Input): (r: Outcome)
    ensures SavesEntry(store, r, Profile(key, Line(inp, 0), Line(inp, 1), Line(inp, 2)))
    ensures r.rest == Drop(inp, 3)
  {
    var user := ReadInput(inp);
    var email := ReadInput(user.rest);
    var remote := ReadInput(email.rest);
    DropLine(inp, 1, 0);
    DropLine(inp, 2, 0);
    DropLine(inp, 1, 1);
    var p := Profile(key, user.line, email.line, remote.line);
    Outcome(ProfileAdded(key), Some(store[key := p]), [], remote.rest)
  }

  /** The service a selector names, if any: "1" is GitHub, "2" is GitLab. */
  function Service(selector: string): Option<string> {
    if selector == "1" then Some("GitHub")
    else if selector == "2" then Some("GitLab")
    else None
  }

  /** The branch of `add_profile` for a known service: the user name comes next
      and the key is `<service>_<user name>`. */
  function AddForService(store: Store, service: string, inp: Input): (r: Outcome)
    requires service == "GitHub" || service == "GitLab"
    ensures SavesEntry(store, r, Profile(service + "_" + Line(inp, 0), Line(inp, 0), Line(inp, 1), Line(inp, 2)))
    ensures r.rest == Drop(inp, 3)
  {
    var user := ReadInput(inp);
    var email := ReadInput(user.rest);
    var remote := ReadInput(email.rest);
    DropLine(inp, 1, 0);
    DropLine(inp, 2, 0);
    DropLine(inp, 1, 1);
    var key := service + "_" + user.line;
    var p := Profile(key, user.line, email.line, remote.line);
    Outcome(ProfileAdded(key), Some(store[key := p]), [], remote.rest)
  }

  /** `add_profile`. The first line selects how the key is formed: "1" and "2"
      give `GitHub_<user>` and `GitLab_<user>` for the user name on the next
      line; "3" takes the next line as the key; any other text, the empty line
      included, is the key itself. The remaining lines are user name (unless
      already read), e-mail and remote. Exactly that one entry is written. */
  function Add(store: Store, inp: Input): (r: Outcome)
    ensures var sel := Line(inp, 0);
            if sel == "1" || sel == "2" then
              var key := (if sel == "1" then "GitHub_" else "GitLab_") + Line(inp, 1);
              SavesEntry(store, r, Profile(key, Line(inp, 1), Line(inp, 2), Line(inp, 3)))
              && r.rest == Drop(inp, 4)
            else if sel == "3" then
              SavesEntry(store, r, Profile(Line(inp, 1), Line(inp, 2), Line(inp, 3), Line(inp, 4)))
              && r.rest == Drop(inp, 5)
            else
              SavesEntry(store, r, Profile(sel, Line(inp, 1), Line(inp, 2), Line(inp, 3)))
              && r.rest == Drop(inp, 4)
  {
    var selector := ReadInput(inp);
    DropLine(inp, 1, 0);
    DropLine(inp, 1, 1);
    DropLine(inp, 1, 2);
    DropLine(inp, 1, 3);
    match Service(selector.line)
    case Some(service) =>
      assert service + "_" == if selector.line == "1" then "GitHub_" else "GitLab_";
      AddForService(store, service, selector.rest)
    case None =>
      if selector.line == "3" then
        var custom := ReadInput(selector.rest);
        DropLine(inp, 2, 0);
        DropLine(inp, 2, 1);
        DropLine(inp, 2, 2);
        AddCustom(store, custom.line, custom.rest)
      else
        AddCustom(store, selector.line, selector.rest)
  }

  /** A service prefix followed by a trimmed user name is trimmed. */
  lemma PrefixedTrimmed(prefix: string, user: string)
    requires prefix == "GitHub_" || prefix == "GitLab_"
    requires Trimmed(user)
    ensures Trimmed(prefix + user)
  {
  }

  /** `add` keeps the store well-formed: the entry it writes is stored under its
      own name and all its fields come trimmed from the prompt. */
  lemma AddKeepsWellFormed(store: Store, inp: Input)
    requires WellFormed(store)
    ensures WellFormed(StoreAfter(store, Add(store, inp)))
  {
    var r := Add(store, inp);
    var sel := Line(inp, 0);
    LineTrimmed(inp, 0);
    LineTrimmed(inp, 1);
    LineTrimmed(inp, 2);
    LineTrimmed(inp, 3);
    LineTrimmed(inp, 4);
    var p := r.saved.value[r.report.key];
    if sel == "1" || sel == "2" {
      PrefixedTrimmed(if sel == "1" then "GitHub_" else "GitLab_", Line(inp, 1));
    }
    assert FieldsTrimmed(p);
    InsertKeepsWellFormed(store, p, r.saved.value);
  }

  /** The git invocations `switch` makes for profile `p`: the global user name,
      then the global e-mail, then the `origin` URL, the last only when the
      profile has a remote. */
  function SwitchPlan(p: Profile): (plan: seq<GitArgs>)
    ensures |plan| == (if p.remote != "" then 3 else 2)
    ensures plan[0] == SetUserName(p.name) && plan[1] == SetUserEmail(p.email)
    ensures p.remote != "" ==> plan[2] == SetOriginUrl(p.remote)
    ensures TouchesOrigin(plan) <==> p.remote != ""
  {
    var plan := [SetUserName(p.name), SetUserEmail(p.email)]
                + (if p.remote != "" then [SetOriginUrl(p.remote)] else []);
    assert p.remote != "" ==> plan[2][0] == "remote";
    plan
  }

  /** Running the plan leaves git with the profile's name and e-mail as its
      global identity, and with the profile's remote as `origin` when the
      profile has one and the repository has an `origin`; nothing else changes. */
  lemma SwitchPlanEffect(p: Profile, g: GitState)
    ensures RunAll(g, SwitchPlan(p))
            == GitState(Some(p.name), Some(p.email),
                        if p.remote != "" && g.origin.Some? then Some(p.remote) else g.origin)
  {
    var plan := SwitchPlan(p);
    var g1 := Run(g, plan[0]);
    var g2 := Run(g1, plan[1]);
    assert g1 == g.(userName := Some(p.name));
    assert plan[1][..3][2] == "user.email" != "user.name";
    assert g2 == g1.(userEmail := Some(p.email));
    assert RunAll(g, plan) == RunAll(g2, plan[2..]);
    if p.remote != "" {
      assert plan[2..] == [SetOriginUrl(p.remote)];
      assert RunAll(g2, plan[2..]) == RunAll(Run(g2, plan[2]), []);
    } else {
      assert plan[2..] == [];
    }
  }

  /** `switch_profile`: nothing happens on an empty store; otherwise the chosen
      profile's plan is run. Nothing is saved. */
  function Switch(store: Store, order: seq<string>, inp: Input): (r: Outcome)
    requires IsListing(order, store)
    ensures r.saved.None?
    ensures store == map[] ==> r == Outcome(NoProfilesFound, None, [], inp)
    ensures r.report.SwitchedTo? || r.report.NoProfilesFound? || r.report.AwaitingSelection?
    ensures r.report.SwitchedTo? <==> store != map[] && Select(order, inp).Some?
    ensures r.report.SwitchedTo? ==>
              && r.report.key in store
              && Select(order, inp) == Some(Selection(r.report.key, r.rest))
              && r.commands == SwitchPlan(store[r.report.key])
    ensures !r.report.SwitchedTo? ==> r.commands == []
  {
    if store == map[] then Outcome(NoProfilesFound, None, [], inp)
    else
      match Select(order, inp)
      case None => Outcome(AwaitingSelection, None, [], [])
      case Some(sel) => Outcome(SwitchedTo(sel.key), None, SwitchPlan(store[sel.key]), sel.rest)
  }

  /** `remove_profile`: on an empty store nothing happens; otherwise, once a
      profile is chosen and the removal confirmed, the store is saved without
      that one key; a refused confirmation saves nothing. */
  function Remove(store: Store, order: seq<string>, inp: Input): (r: Outcome)
    requires IsListing(order, store)
    ensures r.commands == []
    ensures store == map[] ==> r == Outcome(NoProfilesFound, None, [], inp)
    ensures r.saved.Some? <==> r.report.ProfileRemoved?
    ensures r.report.ProfileRemoved? <==>
              store != map[] && Select(order, inp).Some? && Confirm(Select(order, inp).value.rest).yes
    ensures r.report.OperationCanceled? <==>
              store != map[] && Select(order, inp).Some? && !Confirm(Select(order, inp).value.rest).yes
    ensures r.report.ProfileRemoved? ==>
              && r.report.key in store
              && r.report.key == Select(order, inp).value.key
              && r.saved.value.Keys == store.Keys - {r.report.key}
              && forall k :: k in r.saved.value ==> r.saved.value[k] == store[k]
    ensures WellFormed(store) ==> WellFormed(StoreAfter(store, r))
  {
    if store == map[] then Outcome(NoProfilesFound, None, [], inp)
    else
      match Select(order, inp)
      case None => Outcome(AwaitingSelection, None, [], [])
      case Some(sel) =>
        var answer := Confirm(sel.rest);
        if answer.yes then Outcome(ProfileRemoved(sel.key), Some(store - {sel.key}), [], answer.rest)
        else Outcome(OperationCanceled, None, [], answer.rest)
  }

  /** `remove_all_profiles`: after a confirmation the empty store is saved,
      whatever was stored before (the store is not even loaded), so repeating
      the command changes nothing; a refusal saves nothing. */
  function RemoveAll(inp: Input): (r: Outcome)
    ensures r.commands == [] && r.rest == Drop(inp, 1)
    ensures r.saved.Some? <==> Line(inp, 0) == "y" || Line(inp, 0) == "Y"
    ensures r.saved.Some? ==> r.saved.value == map[] && r.report == AllRemoved
    ensures r.saved.None? ==> r.report == OperationCanceled
  {
    var answer := Confirm(inp);
    if answer.yes then Outcome(AllRemoved, Some(map[]), [], answer.rest)
    else Outcome(OperationCanceled, None, [], answer.rest)
  }

  /** What `current` shows. */
  datatype CurrentIdentity = NoIdentity | IdentitySet(name: string, email: string)

  /** The two reading invocations `current` makes, in order. */
  const CurrentQueries: seq<GitArgs> := [GetUserName, GetUserEmail]

  /** The decision in `show_current_profile`, on the captured outputs of the two
      queries: an identity is shown only when both trimmed outputs are non-empty. */
  function ShowCurrent(nameOut: string, emailOut: string): (r: CurrentIdentity)
    ensures r.IdentitySet? <==> Trim(nameOut) != "" && Trim(emailOut) != ""
    ensures r.IdentitySet? ==> r.name == Trim(nameOut) && r.email == Trim(emailOut)
    ensures r.IdentitySet? ==> Trimmed(r.name) && Trimmed(r.email)
  {
    var name := Trim(nameOut);
    var email := Trim(emailOut);
    TrimSpec(nameOut);
    TrimSpec(emailOut);
    if name != [] && email != [] then IdentitySet(name, email) else NoIdentity
  }

  /** Round trip: after switching to a profile of a well-formed store, `current`
      shows exactly that profile's name and e-mail, or nothing when either is empty. */
  lemma SwitchThenCurrent(store: Store, order: seq<string>, inp: Input, g: GitState)
    requires IsListing(order, store) && WellFormed(store)
    requires Switch(store, order, inp).report.SwitchedTo?
    ensures var o := Switch(store, order, inp);
            var p := store[o.report.key];
            var g' := RunAll(g, o.commands);
            ShowCurrent(Output(g', CurrentQueries[0]), Output(g', CurrentQueries[1]))
              == if p.name != "" && p.email != "" then IdentitySet(p.name, p.email) else NoIdentity
  {
    var o := Switch(store, order, inp);
    var p := store[o.report.key];
    var g' := RunAll(g, o.commands);
    SwitchPlanEffect(p, g);
    assert Output(g', CurrentQueries[0]) == p.name + "\n";
    assert Output(g', CurrentQueries[1]) == p.email + "\n";
    TrimDropsTerminator(p.name, '\n');
    TrimDropsTerminator(p.email, '\n');
  }
}
