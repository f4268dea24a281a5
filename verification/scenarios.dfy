/** Concrete runs of the handlers, each derived from the general contracts. */
module Scenarios {
  import opened Optional
  import opened Text
  import opened Decimal
  import opened Profiles
  import opened Prompt
  import opened Git
  import opened Commands

  /** Service "1" with user "alice" writes exactly the key "GitHub_alice",
      whose name is "alice". */
  lemma AddGitHubAlice(store: Store)
    ensures var r := Add(store, ["1", "alice", "alice@example.com", ""]);
            && r.report == ProfileAdded("GitHub_alice")
            && r.saved.Some?
            && r.saved.value.Keys == store.Keys + {"GitHub_alice"}
            && r.saved.value["GitHub_alice"] == Profile("GitHub_alice", "alice", "alice@example.com", "")
  {
  }

  /** A custom name, whether given after "3" or typed directly as the selector,
      becomes the key and the stored profile name. */
  lemma AddCustomWork(store: Store)
    ensures var r := Add(store, ["3", "work", "Me", "me@example.com", ""]);
            r.report == ProfileAdded("work") && r.saved.value["work"].profileName == "work"
    ensures var r := Add(store, ["work", "Me", "me@example.com", ""]);
            r.report == ProfileAdded("work") && r.saved.value["work"].profileName == "work"
  {
  }

  /** An empty selector line is itself the key. */
  lemma AddEmptySelector(store: Store)
    ensures Add(store, ["", "Me", "me@example.com", ""]).report == ProfileAdded("")
  {
  }

  /** With one listed key, the refused lines "0", "-1", "abc" and "2" are
      skipped and "1" selects that key. */
  lemma SelectAfterRefusals(key: string)
    ensures Select([key], ["0", "-1", "abc", "2", "1"]) == Some(Selection(key, []))
  {
  }

  /** Switching to a profile without a remote, after some refused lines, sets
      the name and the e-mail and does not touch the remote. */
  lemma SwitchToBob()
    ensures var bob := Profile("GitHub_bob", "Bob", "bob@x.com", "");
            var o := Switch(map["GitHub_bob" := bob], ["GitHub_bob"], ["0", "-1", "abc", "2", "1"]);
            && o.report == SwitchedTo("GitHub_bob")
            && o.commands == [SetUserName("Bob"), SetUserEmail("bob@x.com")]
            && o.saved == None
  {
    var bob := Profile("GitHub_bob", "Bob", "bob@x.com", "");
    var store := map["GitHub_bob" := bob];
    assert IsListing(["GitHub_bob"], store);
    SelectAfterRefusals("GitHub_bob");
    assert SwitchPlan(bob) == [SetUserName("Bob"), SetUserEmail("bob@x.com")];
  }

  /** `remove-all` empties any store, and doing it again leaves it empty. */
  lemma RemoveAllTwice(store: Store, first: Input, second: Input)
    requires Line(first, 0) in {"y", "Y"} && Line(second, 0) in {"y", "Y"}
    ensures StoreAfter(store, RemoveAll(first)) == map[]
    ensures StoreAfter(StoreAfter(store, RemoveAll(first)), RemoveAll(second)) == map[]
  {
  }
}
