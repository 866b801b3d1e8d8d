/**
 * get_all_positions: every discovered account queried in turn through its own API
 * object on the shared transport, the usable ones collected and sorted by email.
 */
module Portfolio {
  import opened Wrappers
  import opened Records
  import opened Network
  import opened DeribitClient
  import opened Accounts
  import opened Order

  function CredentialsOf(a: AccountConfig): Credentials
  {
    Credentials(a.clientId, a.clientSecret, BaseUrl(a.testnet))
  }

  function EmailKey(e: AccountPositions): string { e.email }

  /**
   * One pass of the loop body for account `a`: a fresh API object authenticates, then
   * asks for the email and the positions. An account that fails to authenticate
   * sends nothing further and yields nothing. Otherwise both requests are sent, and
   * the account yields an entry exactly when the email is truthy; the entry pairs
   * that email with the filtered positions reply (`[]` when that request failed).
   */
  function AccountRun(venue: Venue, log: seq<Request>, a: AccountConfig, currency: string, now: int)
    : (r: (seq<Request>, Option<AccountPositions>))
    ensures var auth := AuthenticateRun(venue.auth, CredentialsOf(a), NoSession, log, now);
      !auth.value ==> r == (auth.log, None)
    ensures var c := CredentialsOf(a);
      var auth := AuthenticateRun(venue.auth, c, NoSession, log, now);
      var e := RequestRun(venue.auth, c, auth.session, auth.log, now, SummaryEndpoint, SummaryParams(currency), venue.summary);
      var p := RequestRun(venue.auth, c, e.session, e.log, now, PositionsEndpoint, PositionsParams(currency), venue.positions);
      auth.value ==>
        r.0 == p.log &&
        (r.1.Some? <==> EmailOf(e.value).Some? && EmailOf(e.value).value != "") &&
        (r.1.Some? ==> r.1.value == AccountPositions(EmailOf(e.value).value, PositionsOf(p.value)))
    ensures r.1.Some? ==>
      r.1.value.email != "" && forall i :: 0 <= i < |r.1.value.positions| ==> SizeOf(r.1.value.positions[i]) != 0
  {
    var c := CredentialsOf(a);
    var auth := AuthenticateRun(venue.auth, c, NoSession, log, now);
    if !auth.value then (auth.log, None)
    else
      var e := RequestRun(venue.auth, c, auth.session, auth.log, now, SummaryEndpoint, SummaryParams(currency), venue.summary);
      var p := RequestRun(venue.auth, c, e.session, e.log, now, PositionsEndpoint, PositionsParams(currency), venue.positions);
      var email := EmailOf(e.value);
      if email.Some? && email.value != "" then (p.log, Some(AccountPositions(email.value, PositionsOf(p.value))))
      else (p.log, None)
  }

  /** The loop over `accounts`: the transport log it leaves and the entries collected, in account order. */
  function RunAccounts(venue: Venue, log: seq<Request>, accounts: seq<AccountConfig>, currency: string, now: int)
    : (r: (seq<Request>, seq<AccountPositions>))
    ensures |r.1| <= |accounts|
    ensures forall e :: e in r.1 ==> e.email != "" && forall i :: 0 <= i < |e.positions| ==> SizeOf(e.positions[i]) != 0
  {
    if accounts == [] then (log, [])
    else
      var before := RunAccounts(venue, log, accounts[..|accounts| - 1], currency, now);
      var one := AccountRun(venue, before.0, accounts[|accounts| - 1], currency, now);
      (one.0, before.1 + if one.1.Some? then [one.1.value] else [])
  }

  /**
   * The aggregated result is the collected entries stably sorted by email: ascending
   * emails, the same entries, and entries sharing an email kept in account order;
   * every entry has a non-empty email and only non-zero positions.
   */
  lemma AggregateSorted(venue: Venue, log: seq<Request>, accounts: seq<AccountConfig>, currency: string, now: int)
    ensures var collected := RunAccounts(venue, log, accounts, currency, now).1;
      var results := SortBy(collected, EmailKey);
      (forall i, j :: 0 <= i < j < |results| ==> !LexLess(results[j].email, results[i].email)) &&
      multiset(results) == multiset(collected) && |results| <= |accounts| &&
      (forall k :: KeyedWith(results, EmailKey, k) == KeyedWith(collected, EmailKey, k)) &&
      forall e :: e in results ==> e.email != "" && forall i :: 0 <= i < |e.positions| ==> SizeOf(e.positions[i]) != 0
  {
    var collected := RunAccounts(venue, log, accounts, currency, now).1;
    var results := SortBy(collected, EmailKey);
    SortByCorrect(collected, EmailKey);
    assert |results| == |multiset(results)| == |collected|;
    forall e | e in results ensures e in collected {
      assert e in multiset(results);
    }
  }

  lemma RunAccountsStep(venue: Venue, log: seq<Request>, accounts: seq<AccountConfig>, i: nat, currency: string, now: int)
    requires i < |accounts|
    ensures var before := RunAccounts(venue, log, accounts[..i], currency, now);
      var one := AccountRun(venue, before.0, accounts[i], currency, now);
      RunAccounts(venue, log, accounts[..i + 1], currency, now) == (one.0, before.1 + if one.1.Some? then [one.1.value] else [])
  {
    assert accounts[..i + 1][..i] == accounts[..i];
  }

  /** The body of the loop of get_all_positions for one account. */
  method QueryAccount(account: AccountConfig, currency: string, net: Transport, now: int)
    returns (entry: Option<AccountPositions>)
    modifies net
    ensures (net.log, entry) == AccountRun(net.venue, old(net.log), account, currency, now)
  {
    var api := new DeribitApi(account.clientId, account.clientSecret, account.testnet, net);
    var ok := api.Authenticate(now);
    entry := None;
    if ok {
      var email := api.GetAccountEmail(currency, now);
      var positions := api.GetPositions(currency, now);
      if email.Some? && email.value != "" {
        entry := Some(AccountPositions(email.value, positions));
      }
    }
  }

  method GetAllPositions(env: map<string, string>, order: seq<string>, currency: string, net: Transport, now: int)
    returns (results: seq<AccountPositions>)
    requires Listed(env, order)
    modifies net
    ensures match AccountsConfig(env, order)
      case Failure(_) => results == [] && net.log == old(net.log)
      case Success(accounts) =>
        var run := RunAccounts(net.venue, old(net.log), accounts, currency, now);
        results == SortBy(run.1, EmailKey) && net.log == run.0
  {
    var config := LoadAccountsConfig(env, order);
    if config.Failure? {
      return [];
    }
    var accounts := config.value;
    var collected: seq<AccountPositions> := [];
    var i := 0;
    assert accounts[..0] == [];
    while i < |accounts|
      invariant 0 <= i <= |accounts|
      invariant net.log == RunAccounts(net.venue, old(net.log), accounts[..i], currency, now).0
      invariant collected == RunAccounts(net.venue, old(net.log), accounts[..i], currency, now).1
    {
      var account := accounts[i];
      RunAccountsStep(net.venue, old(net.log), accounts, i, currency, now);
      var entry := QueryAccount(account, currency, net, now);
      if entry.Some? {
        collected := collected + [entry.value];
      }
      i := i + 1;
    }
    assert accounts[..i] == accounts;
    results := SortBy(collected, EmailKey);
  }
}
