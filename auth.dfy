/**
 * The pure part of the authentication context: the user record, the fixed demo
 * accounts and the credential match of `login`.
 */
module Auth {
  import opened Wrappers

  /** The signed-in user: `User` of the source. */
  datatype User = User(username: string, loggedInAt: int)

  datatype DemoAccount = DemoAccount(username: string, password: string)

  /** `DEMO_USERS`, in the order `find` scans them. */
  const DemoAccounts: seq<DemoAccount> := [DemoAccount("demo", "password"), DemoAccount("user", "password")]

  /** Lower-casing of one character, for the ASCII letters. */
  function LowerChar(c: char): char {
    if 'A' <= c <= 'Z' then (c as int + 32) as char else c
  }

  function ToLower(s: string): string {
    seq(|s|, i requires 0 <= i < |s| => LowerChar(s[i]))
  }

  /** The `find` predicate: user names equal ignoring case, passwords equal exactly. */
  predicate Matches(account: DemoAccount, username: string, password: string) {
    ToLower(account.username) == ToLower(username) && account.password == password
  }

  /** `accounts.find(...)`: the first account that matches, if any. */
  function Find(accounts: seq<DemoAccount>, username: string, password: string): (r: Option<DemoAccount>)
    ensures r.Some? <==> exists i :: 0 <= i < |accounts| && Matches(accounts[i], username, password)
    ensures r.Some? ==> exists i :: 0 <= i < |accounts| && accounts[i] == r.value
                                  && Matches(accounts[i], username, password)
                                  && forall j :: 0 <= j < i ==> !Matches(accounts[j], username, password)
  {
    if accounts == [] then None
    else if Matches(accounts[0], username, password) then Some(accounts[0])
    else
      var r := Find(accounts[1..], username, password);
      assert forall i :: 1 <= i < |accounts| ==> accounts[i] == accounts[1..][i - 1];
      r
  }

  /** `DEMO_USERS.find(...)`: the demo account `login` accepts for these credentials, if any. */
  function FindDemoAccount(username: string, password: string): (r: Option<DemoAccount>)
    ensures r.Some? ==> r.value in DemoAccounts && Matches(r.value, username, password)
    ensures r.Some? ==> r.value.password == "password" && r.value.password == password
  {
    Find(DemoAccounts, username, password)
  }

  /**
   * `login` accepts exactly the names "demo" and "user" in any ASCII letter case,
   * with the password "password" spelled exactly.
   */
  lemma LoginAcceptsExactly(username: string, password: string)
    ensures FindDemoAccount(username, password).Some?
        <==> (ToLower(username) == "demo" || ToLower(username) == "user") && password == "password"
  {
    assert ToLower("demo") == "demo";
    assert ToLower("user") == "user";
    var r := FindDemoAccount(username, password);
    if (ToLower(username) == "demo" || ToLower(username) == "user") && password == "password" {
      assert Matches(DemoAccounts[if ToLower(username) == "demo" then 0 else 1], username, password);
    }
  }

  /** The account found carries the canonical demo spelling, which the typed name equals up to case. */
  lemma LoginNameIsCanonical(username: string, password: string)
    requires FindDemoAccount(username, password).Some?
    ensures var name := FindDemoAccount(username, password).value.username;
            (name == "demo" || name == "user") && ToLower(username) == name
  {
  }

  /** The typed name may differ in case; the signed-in name is the demo spelling. */
  lemma LoginIgnoresNameCase()
    ensures FindDemoAccount("DeMo", "password") == Some(DemoAccount("demo", "password"))
    ensures FindDemoAccount("USER", "password") == Some(DemoAccount("user", "password"))
  {
    assert ToLower("DeMo") == "demo" == ToLower("demo");
    assert ToLower("USER") == "user" == ToLower("user");
  }

  /** The password must match exactly, and only the two demo names exist. */
  lemma LoginRejects()
    ensures FindDemoAccount("demo", "Password") == None
    ensures FindDemoAccount("admin", "password") == None
  {
  }
}
