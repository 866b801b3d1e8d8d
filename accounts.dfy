/**
 * load_accounts_config: credential discovery over the process environment, given
 * as a map together with the order in which the environment lists its keys.
 */
module Accounts {
  import opened Wrappers
  import opened Records
  import opened Order

  const ClientIdPrefix := "DERIBIT_CLIENT_ID"
  const ClientSecretPrefix := "DERIBIT_CLIENT_SECRET"
  const TestnetVariable := "DERIBIT_TESTNET"
  const NoAccountsMessage := "No valid account configurations found"

  /** `order` enumerates the keys of `env`, each once, as `os.environ.items()` does. */
  predicate Listed(env: map<string, string>, order: seq<string>)
  {
    (forall k :: k in env ==> k in order) && (forall k :: k in order ==> k in env) &&
    (forall i, j :: 0 <= i < j < |order| ==> order[i] != order[j])
  }

  predicate StartsWith(s: string, p: string) { |p| <= |s| && s[..|p|] == p }

  predicate MatchesAt(pat: string, s: string, i: int)
  {
    0 <= i && i + |pat| <= |s| && s[i..i + |pat|] == pat
  }

  ghost predicate Occurs(pat: string, s: string)
  {
    exists i :: MatchesAt(pat, s, i)
  }

  /** Python's `s.replace(pat, "")`: every occurrence, left to right and not overlapping, deleted. */
  function RemoveAll(s: string, pat: string): string
    requires pat != []
    decreases |s|
  {
    if |s| < |pat| then s
    else if s[..|pat|] == pat then RemoveAll(s[|pat|..], pat)
    else [s[0]] + RemoveAll(s[1..], pat)
  }

  lemma {:induction false} RemoveAllNoOccurrence(s: string, pat: string)
    requires pat != [] && !Occurs(pat, s)
    ensures RemoveAll(s, pat) == s
    decreases |s|
  {
    if |s| >= |pat| {
      assert !MatchesAt(pat, s, 0);
      forall i ensures MatchesAt(pat, s[1..], i) ==> MatchesAt(pat, s, i + 1) {
        if 0 <= i && i + |pat| <= |s| - 1 {
          assert s[1..][i..i + |pat|] == s[i + 1..i + 1 + |pat|];
        }
      }
      RemoveAllNoOccurrence(s[1..], pat);
    }
  }

  /** The suffix `load_accounts_config` files a client id under. */
  function SuffixOf(key: string): string
  {
    if key == ClientIdPrefix then "" else RemoveAll(key, ClientIdPrefix)
  }

  /**
   * For a key made of the prefix and a rest in which the prefix does not occur again,
   * the suffix is exactly that rest.
   */
  lemma SuffixStripsPrefix(rest: string)
    requires !Occurs(ClientIdPrefix, rest)
    ensures SuffixOf(ClientIdPrefix + rest) == rest
  {
    var key := ClientIdPrefix + rest;
    assert key[..|ClientIdPrefix|] == ClientIdPrefix;
    assert key[|ClientIdPrefix|..] == rest;
    RemoveAllNoOccurrence(rest, ClientIdPrefix);
  }

  function LowerAscii(c: char): char
  {
    if 'A' <= c <= 'Z' then (c as int - 'A' as int + 'a' as int) as char else c
  }

  /** `str.lower()`; no character outside ASCII lowers to one of the letters of "true". */
  function Lower(s: string): (r: string)
    ensures |r| == |s|
  {
    seq(|s|, i requires 0 <= i < |s| => LowerAscii(s[i]))
  }

  /** `os.getenv("DERIBIT_TESTNET", "false").lower() == "true"` */
  function Testnet(env: map<string, string>): (r: bool)
    ensures TestnetVariable !in env ==> !r
    ensures TestnetVariable in env && env[TestnetVariable] in {"true", "True", "TRUE"} ==> r
    ensures r ==> TestnetVariable in env && |env[TestnetVariable]| == 4
  {
    Lower(if TestnetVariable in env then env[TestnetVariable] else "false") == "true"
  }

  /** The flag is set exactly by "true" in any mix of upper- and lower-case letters. */
  lemma TestnetIsAnyCapitalisation(env: map<string, string>)
    ensures Testnet(env) <==>
      (TestnetVariable in env &&
       var v := env[TestnetVariable];
       |v| == 4 && v[0] in {'t', 'T'} && v[1] in {'r', 'R'} && v[2] in {'u', 'U'} && v[3] in {'e', 'E'})
  {
    if TestnetVariable in env {
      var v := env[TestnetVariable];
      if |v| == 4 {
        assert Lower(v) == [LowerAscii(v[0]), LowerAscii(v[1]), LowerAscii(v[2]), LowerAscii(v[3])];
      }
    }
  }

  predicate IsClientIdEntry(env: map<string, string>, key: string)
    requires key in env
  {
    StartsWith(key, ClientIdPrefix) && env[key] != ""
  }

  /** `client_id_vars` after the first loop has seen `keys`: a later key with the same suffix wins. */
  function ClientIds(env: map<string, string>, keys: seq<string>): map<string, string>
    requires forall k :: k in keys ==> k in env
  {
    if keys == [] then map[]
    else
      var ids := ClientIds(env, keys[..|keys| - 1]);
      var key := keys[|keys| - 1];
      if IsClientIdEntry(env, key) then ids[SuffixOf(key) := env[key]] else ids
  }

  /** `key` is a non-empty client id filed under suffix `s`. */
  predicate FilesUnder(env: map<string, string>, key: string, s: string)
    requires key in env
  {
    IsClientIdEntry(env, key) && SuffixOf(key) == s
  }

  /**
   * A suffix is in `client_id_vars` exactly when some key files a client id under it,
   * and the id kept is the one of the last such key.
   */
  lemma {:induction false} ClientIdsLastWins(env: map<string, string>, keys: seq<string>, s: string)
    requires forall k :: k in keys ==> k in env
    ensures s in ClientIds(env, keys) <==> exists i :: 0 <= i < |keys| && FilesUnder(env, keys[i], s)
    ensures s in ClientIds(env, keys) ==>
      exists i :: 0 <= i < |keys| && FilesUnder(env, keys[i], s) &&
        ClientIds(env, keys)[s] == env[keys[i]] && forall j :: i < j < |keys| ==> !FilesUnder(env, keys[j], s)
  {
    if keys != [] {
      var init, last := keys[..|keys| - 1], keys[|keys| - 1];
      ClientIdsLastWins(env, init, s);
      var n := |keys| - 1;
      if FilesUnder(env, last, s) {
        assert FilesUnder(env, keys[n], s);
      } else {
        if s in ClientIds(env, keys) {
          var i :| 0 <= i < |init| && FilesUnder(env, init[i], s) &&
            ClientIds(env, init)[s] == env[init[i]] && forall j :: i < j < |init| ==> !FilesUnder(env, init[j], s);
          assert keys[i] == init[i];
          assert forall j :: i < j < |keys| ==> !FilesUnder(env, keys[j], s) by {
            forall j | i < j < |keys| ensures !FilesUnder(env, keys[j], s) {
              if j < n {
                assert keys[j] == init[j];
              }
            }
          }
        }
        if exists i :: 0 <= i < |keys| && FilesUnder(env, keys[i], s) {
          var i :| 0 <= i < |keys| && FilesUnder(env, keys[i], s);
          assert i < n && init[i] == keys[i];
        }
      }
    }
  }

  /** The order in which `client_id_vars` holds its keys: each suffix where it was first inserted. */
  function SuffixOrder(env: map<string, string>, keys: seq<string>): (r: seq<string>)
    requires forall k :: k in keys ==> k in env
    ensures forall s :: s in r <==> s in ClientIds(env, keys)
    ensures forall i, j :: 0 <= i < j < |r| ==> r[i] != r[j]
  {
    if keys == [] then []
    else
      var order := SuffixOrder(env, keys[..|keys| - 1]);
      var key := keys[|keys| - 1];
      if IsClientIdEntry(env, key) && SuffixOf(key) !in ClientIds(env, keys[..|keys| - 1])
      then order + [SuffixOf(key)]
      else order
  }

  /** `os.getenv("DERIBIT_CLIENT_SECRET" + suffix)` when it is truthy. */
  function SecretFor(env: map<string, string>, suffix: string): Option<string>
  {
    var key := ClientSecretPrefix + suffix;
    if key in env && env[key] != "" then Some(env[key]) else None
  }

  /** The account a suffix stands for, when its secret is set. */
  function AccountFor(env: map<string, string>, ids: map<string, string>, suffix: string): AccountConfig
    requires suffix in ids && SecretFor(env, suffix).Some?
  {
    AccountConfig(ids[suffix], SecretFor(env, suffix).value, Testnet(env), suffix)
  }

  /** `accounts` after the second loop has seen `suffixes`. */
  function Collect(env: map<string, string>, ids: map<string, string>, suffixes: seq<string>): (r: seq<AccountConfig>)
    requires forall s :: s in suffixes ==> s in ids
    ensures forall a :: a in r <==> a.suffix in suffixes && SecretFor(env, a.suffix).Some? && a == AccountFor(env, ids, a.suffix)
    ensures (forall i, j :: 0 <= i < j < |suffixes| ==> suffixes[i] != suffixes[j]) ==>
      forall i, j :: 0 <= i < j < |r| ==> r[i].suffix != r[j].suffix
  {
    if suffixes == [] then []
    else
      var acc := Collect(env, ids, suffixes[..|suffixes| - 1]);
      var suffix := suffixes[|suffixes| - 1];
      assert suffixes == suffixes[..|suffixes| - 1] + [suffix];
      if SecretFor(env, suffix).Some? then acc + [AccountFor(env, ids, suffix)] else acc
  }

  function SuffixKey(a: AccountConfig): string { a.suffix }

  /** Python's `(s != "", s) < (t != "", t)` on the sort keys of line 186. */
  predicate SuffixKeyLess(s: string, t: string)
  {
    (s == "" && t != "") || ((s != "") == (t != "") && LexLess(s, t))
  }

  /** The tuple key orders suffixes exactly as plain string order does, the empty one first. */
  lemma SuffixKeyIsLexical(s: string, t: string)
    ensures SuffixKeyLess(s, t) <==> LexLess(s, t)
    ensures s == "" && t != "" ==> LexLess(s, t)
  {
  }

  /** What `load_accounts_config` returns, or the ValueError it raises. */
  function AccountsConfig(env: map<string, string>, order: seq<string>): Result<seq<AccountConfig>, string>
    requires forall k :: k in order ==> k in env
  {
    var accounts := Collect(env, ClientIds(env, order), SuffixOrder(env, order));
    if accounts == [] then Failure(NoAccountsMessage) else Success(SortBy(accounts, SuffixKey))
  }

  lemma {:induction false} DistinctMultiset<T>(s: seq<T>, x: T)
    requires forall i, j :: 0 <= i < j < |s| ==> s[i] != s[j]
    ensures multiset(s)[x] <= 1
  {
    if s != [] {
      var init := s[..|s| - 1];
      assert s == init + [s[|s| - 1]];
      DistinctMultiset(init, x);
      if x == s[|s| - 1] {
        assert x !in init;
      }
    }
  }

  lemma RepeatedMultiset<T>(s: seq<T>, i: int, j: int)
    requires 0 <= i < j < |s| && s[i] == s[j]
    ensures multiset(s)[s[i]] >= 2
  {
    assert s == s[..j] + [s[j]] + s[j + 1..];
    assert s[i] in s[..j];
  }

  /** Sorting keeps the members; with distinct suffixes it orders them strictly. */
  lemma SortedAccountsStrict(collected: seq<AccountConfig>, env: map<string, string>, ids: map<string, string>)
    requires forall i, j :: 0 <= i < j < |collected| ==> collected[i].suffix != collected[j].suffix
    requires forall a :: a in collected ==> a.suffix in ids && SecretFor(env, a.suffix).Some? && a == AccountFor(env, ids, a.suffix)
    ensures var sorted := SortBy(collected, SuffixKey);
      (forall a :: a in sorted <==> a in collected) &&
      forall i, j :: 0 <= i < j < |sorted| ==> LexLess(sorted[i].suffix, sorted[j].suffix)
  {
    var sorted := SortBy(collected, SuffixKey);
    SortByCorrect(collected, SuffixKey);
    forall a ensures a in sorted <==> a in collected {
      assert a in sorted <==> a in multiset(sorted);
    }
    forall p, q | 0 <= p < q < |collected| ensures collected[p] != collected[q] {
      assert collected[p].suffix != collected[q].suffix;
    }
    forall i, j | 0 <= i < j < |sorted| ensures SuffixKey(sorted[i]) != SuffixKey(sorted[j]) {
      if sorted[i].suffix == sorted[j].suffix {
        assert sorted[i] in collected && sorted[j] in collected;
        assert sorted[i] == sorted[j];
        RepeatedMultiset(sorted, i, j);
        DistinctMultiset(collected, sorted[i]);
      }
    }
    SortedDistinctIsStrict(sorted, SuffixKey);
  }

  /**
   * The discovered accounts: there are none exactly when no discovered suffix has a
   * secret; otherwise one account per suffix with a secret, carrying the client id
   * filed under that suffix, listed with strictly increasing suffixes (so the
   * account of the bare DERIBIT_CLIENT_ID, suffix "", comes first).
   */
  lemma AccountsConfigCorrect(env: map<string, string>, order: seq<string>)
    requires forall k :: k in order ==> k in env
    ensures var ids := ClientIds(env, order);
      match AccountsConfig(env, order)
      case Failure(_) => forall s :: s in ids ==> SecretFor(env, s).None?
      case Success(accounts) =>
        accounts != [] &&
        (forall i, j :: 0 <= i < j < |accounts| ==> LexLess(accounts[i].suffix, accounts[j].suffix)) &&
        forall a :: a in accounts <==>
          a.suffix in ids && SecretFor(env, a.suffix).Some? && a == AccountFor(env, ids, a.suffix)
  {
    var ids := ClientIds(env, order);
    var suffixes := SuffixOrder(env, order);
    var collected := Collect(env, ids, suffixes);
    if collected == [] {
      forall s | s in ids && SecretFor(env, s).Some? ensures AccountFor(env, ids, s) in collected {
      }
    } else {
      SortedAccountsStrict(collected, env, ids);
    }
  }

  method LoadAccountsConfig(env: map<string, string>, order: seq<string>) returns (r: Result<seq<AccountConfig>, string>)
    requires Listed(env, order)
    ensures r == AccountsConfig(env, order)
  {
    var testnet := Lower(if TestnetVariable in env then env[TestnetVariable] else "false") == "true";
    var clientIdVars, insertion := FindClientIds(env, order);
    var accounts := PairWithSecrets(env, clientIdVars, insertion, testnet);
    if accounts == [] {
      return Failure(NoAccountsMessage);
    }
    return Success(SortBy(accounts, SuffixKey));
  }

  /** The first loop of load_accounts_config: the client ids by suffix, in insertion order. */
  method FindClientIds(env: map<string, string>, order: seq<string>) returns (clientIdVars: map<string, string>, insertion: seq<string>)
    requires Listed(env, order)
    ensures clientIdVars == ClientIds(env, order) && insertion == SuffixOrder(env, order)
  {
    clientIdVars, insertion := map[], [];
    var i := 0;
    while i < |order|
      invariant 0 <= i <= |order|
      invariant clientIdVars == ClientIds(env, order[..i])
      invariant insertion == SuffixOrder(env, order[..i])
    {
      var key := order[i];
      var value := env[key];
      assert order[..i + 1][..i] == order[..i] && order[..i + 1][i] == key;
      if StartsWith(key, ClientIdPrefix) && value != "" {
        var suffix := if key == ClientIdPrefix then "" else RemoveAll(key, ClientIdPrefix);
        if suffix !in clientIdVars {
          insertion := insertion + [suffix];
        }
        clientIdVars := clientIdVars[suffix := value];
      }
      i := i + 1;
    }
    assert order[..i] == order;
  }

  /** The second loop of load_accounts_config: one account per suffix whose secret is set. */
  method PairWithSecrets(env: map<string, string>, clientIdVars: map<string, string>, insertion: seq<string>, testnet: bool)
    returns (accounts: seq<AccountConfig>)
    requires forall s :: s in insertion ==> s in clientIdVars
    requires testnet == Testnet(env)
    ensures accounts == Collect(env, clientIdVars, insertion)
  {
    accounts := [];
    var j := 0;
    while j < |insertion|
      invariant 0 <= j <= |insertion|
      invariant accounts == Collect(env, clientIdVars, insertion[..j])
    {
      var suffix := insertion[j];
      var secretKey := ClientSecretPrefix + suffix;
      assert insertion[..j + 1][..j] == insertion[..j] && insertion[..j + 1][j] == suffix;
      if secretKey in env && env[secretKey] != "" {
        accounts := accounts + [AccountConfig(clientIdVars[suffix], env[secretKey], testnet, suffix)];
      }
      j := j + 1;
    }
    assert insertion[..j] == insertion;
  }
}
