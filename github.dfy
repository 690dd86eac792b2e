/**
 * `fetchGithubRepos(username, token)` without the network: the public
 * repository page and the authenticated one are given as what `httpGetJson`
 * settled with. The repositories of both pages are collected, the
 * authenticated ones filtered to the user's own, de-duplicated by key
 * keeping the first of each, and mapped to the FieldOps repository record.
 */
module GithubRepos {
  import opened Wrappers
  import opened Json
  import opened Seqs

  /** What `await httpGetJson(url)` gives: the parsed body of a 2xx response, or a rejection. */
  datatype Fetch = Failed | Fetched(body: Json)

  /**
   * The values `for (const r of page)` visits: the elements of an array, the
   * characters of a string as one-character strings; `None` for any other
   * value, on which the loop throws before the first iteration.
   */
  function PageItems(page: Json): (r: Option<seq<Json>>)
    ensures page.JArr? ==> r == Some(page.items)
    ensures r.Some? <==> page.JArr? || page.JStr?
  {
    match page
    case JArr(xs) => Some(xs)
    case JStr(s) => Some(seq(|s|, i requires 0 <= i < |s| => JStr([s[i]])))
    case _ => None
  }

  /** The public page's contribution to `repos`: nothing when the request failed or the loop threw. */
  function PublicRepos(page: Fetch): seq<Json>
  {
    if page.Fetched? && PageItems(page.body).Some? then PageItems(page.body).value else []
  }

  // ------------------------------------------------------------ owner filter

  /** `s.toLowerCase()` on the ASCII letters: no capital is left, and every other character stays in place. */
  function Lower(s: string): (r: string)
    ensures |r| == |s|
    ensures forall i :: 0 <= i < |r| ==> !('A' <= r[i] <= 'Z')
    ensures forall i :: 0 <= i < |s| && !('A' <= s[i] <= 'Z') ==> r[i] == s[i]
  {
    seq(|s|, i requires 0 <= i < |s| => if 'A' <= s[i] <= 'Z' then (s[i] as int + 32) as char else s[i])
  }

  /** Lower-casing a lower-cased name changes nothing. */
  lemma LowerIdempotent(s: string)
    ensures Lower(Lower(s)) == Lower(s)
  {
  }

  /** What the authenticated loop does with one repository. */
  datatype Verdict = Take | Skip | Throws

  /**
   * `r.owner && r.owner.login && r.owner.login.toLowerCase() === username.toLowerCase()`:
   * reading `owner` of `null` throws, and so does calling `toLowerCase` on a
   * truthy login that is not a string.
   */
  function OwnerVerdict(r: Json, username: string): Verdict
  {
    if r.JNull? then Throws
    else
      var owner := Prop(r, "owner");
      if !Truthy(owner) then Skip
      else
        var login := Prop(owner.value, "login");
        if !Truthy(login) then Skip
        else if !login.value.JStr? then Throws
        else if Lower(login.value.s) == Lower(username) then Take
        else Skip
  }

  /** The repositories the authenticated loop pushes, up to the first one on which it throws. */
  function AuthedRepos(items: seq<Json>, username: string): seq<Json>
    decreases |items|
  {
    if items == [] then []
    else
      match OwnerVerdict(items[0], username)
      case Throws => []
      case Take => [items[0]] + AuthedRepos(items[1..], username)
      case Skip => AuthedRepos(items[1..], username)
  }

  /** The authenticated page's contribution: only with a token, and nothing when it failed. */
  function AuthedContribution(token: string, page: Fetch, username: string): seq<Json>
  {
    if token != "" && page.Fetched? && PageItems(page.body).Some?
    then AuthedRepos(PageItems(page.body).value, username)
    else []
  }

  /** `repos` once both loops are done: the public page's repositories first. */
  function Collected(username: string, token: string, publicPage: Fetch, authedPage: Fetch): seq<Json>
  {
    PublicRepos(publicPage) + AuthedContribution(token, authedPage, username)
  }

  /** Every repository the authenticated loop keeps belongs to the user, compared without case. */
  lemma {:induction false} AuthedReposOwned(items: seq<Json>, username: string)
    ensures forall r :: r in AuthedRepos(items, username) ==> OwnerVerdict(r, username) == Take
    ensures |AuthedRepos(items, username)| <= |items|
    decreases |items|
  {
    if items != [] {
      AuthedReposOwned(items[1..], username);
    }
  }

  /** When no repository makes the loop throw, it keeps every one the user owns. */
  lemma {:induction false} AuthedReposComplete(items: seq<Json>, username: string)
    requires forall i :: 0 <= i < |items| ==> OwnerVerdict(items[i], username) != Throws
    ensures forall i :: 0 <= i < |items| && OwnerVerdict(items[i], username) == Take ==>
      items[i] in AuthedRepos(items, username)
    decreases |items|
  {
    if items != [] {
      AuthedReposComplete(items[1..], username);
      forall i | 1 <= i < |items| ensures items[i] == items[1..][i - 1] { }
    }
  }

  /** A repository on which the loop throws ends it: nothing after it is kept. */
  lemma {:induction false} AuthedReposStopAtThrow(a: seq<Json>, t: Json, b: seq<Json>, username: string)
    requires OwnerVerdict(t, username) == Throws
    ensures AuthedRepos(a + [t] + b, username) == AuthedRepos(a, username)
    decreases |a|
  {
    if a == [] {
      assert a + [t] + b == [t] + b;
    } else {
      assert (a + [t] + b)[0] == a[0];
      assert (a + [t] + b)[1..] == a[1..] + [t] + b;
      AuthedReposStopAtThrow(a[1..], t, b, username);
    }
  }

  /** The owner test ignores case: an owner `Octo` matches the user name `octo`. */
  lemma OwnerMatchIgnoresCase()
    ensures OwnerVerdict(JObj(map["owner" := JObj(map["login" := JStr("Octo")])]), "octo") == Take
  {
    var r := JObj(map["owner" := JObj(map["login" := JStr("Octo")])]);
    assert Prop(r, "owner") == Some(JObj(map["login" := JStr("Octo")]));
    assert Prop(JObj(map["login" := JStr("Octo")]), "login") == Some(JStr("Octo"));
    assert Lower("Octo") == "octo";
  }

  // ------------------------------------------------------------- de-duplication

  /** `r.full_name || r.id || r.html_url`. */
  function KeyOf(r: Json): Option<Json>
    requires !r.JNull?
  {
    Or(Or(Prop(r, "full_name"), Prop(r, "id")), Prop(r, "html_url"))
  }

  /**
   * A key `Map` compares by value: `undefined`, `null`, a boolean, a number
   * or a string. An object or array key is a reference of its own, equal to
   * no other key of a freshly parsed page.
   */
  predicate IsPrimitive(k: Option<Json>)
  {
    k.None? || !(k.value.JArr? || k.value.JObj?)
  }

  /** Whether `byKey.has` answers yes for a key when the other one is in the map. */
  predicate Collide(a: Option<Json>, b: Option<Json>)
  {
    a == b && IsPrimitive(a)
  }

  predicate NoNull(rs: seq<Json>)
  {
    forall i :: 0 <= i < |rs| ==> !rs[i].JNull?
  }

  lemma NoNullPrefix(rs: seq<Json>, n: nat)
    requires NoNull(rs) && n <= |rs|
    ensures NoNull(rs[..n])
  {
    forall i | 0 <= i < n ensures !rs[..n][i].JNull? {
      assert rs[..n][i] == rs[i];
    }
  }

  /** The repository at `i` is the first with its key. */
  predicate FirstOfKey(rs: seq<Json>, i: nat)
    requires NoNull(rs) && i < |rs|
  {
    forall j :: 0 <= j < i ==> !Collide(KeyOf(rs[j]), KeyOf(rs[i]))
  }

  /** The repositories that are the first with their key, in their order in `rs`. */
  function FirstPerKey(rs: seq<Json>): (kept: seq<Json>)
    requires NoNull(rs)
    ensures NoNull(kept) && |kept| <= |rs|
    decreases |rs|
  {
    if rs == [] then []
    else
      var n := |rs| - 1;
      FirstPerKey(rs[..n]) + (if FirstOfKey(rs, n) then [rs[n]] else [])
  }

  /** The key of `r` when `byKey.has` can find it again, as a set of at most one key. */
  function KeySet(r: Json): set<Option<Json>>
    requires !r.JNull?
  {
    if IsPrimitive(KeyOf(r)) then {KeyOf(r)} else {}
  }

  /** The primitive keys among `rs`: what `byKey.has` can answer yes for. */
  function PrimitiveKeys(rs: seq<Json>): set<Option<Json>>
    requires NoNull(rs)
  {
    set j | 0 <= j < |rs| && IsPrimitive(KeyOf(rs[j])) :: KeyOf(rs[j])
  }

  lemma PrimitiveKeysSnoc(rs: seq<Json>, n: nat)
    requires NoNull(rs) && n + 1 == |rs|
    ensures NoNull(rs[..n])
    ensures PrimitiveKeys(rs) == PrimitiveKeys(rs[..n]) + KeySet(rs[n])
  {
    var front := rs[..n];
    forall x | x in PrimitiveKeys(rs) ensures x in PrimitiveKeys(front) + KeySet(rs[n]) {
      var j :| 0 <= j < |rs| && IsPrimitive(KeyOf(rs[j])) && KeyOf(rs[j]) == x;
      if j < n { assert front[j] == rs[j]; }
    }
    forall x | x in PrimitiveKeys(front) ensures x in PrimitiveKeys(rs) {
      var j :| 0 <= j < |front| && IsPrimitive(KeyOf(front[j])) && KeyOf(front[j]) == x;
      assert rs[j] == front[j];
    }
  }

  /** The repository at `i` is the first with its key exactly when no earlier one has put its key in `byKey`. */
  lemma FirstOfKeyIff(rs: seq<Json>, i: nat)
    requires NoNull(rs) && i < |rs|
    ensures NoNull(rs[..i])
    ensures FirstOfKey(rs, i) <==> !(IsPrimitive(KeyOf(rs[i])) && KeyOf(rs[i]) in PrimitiveKeys(rs[..i]))
  {
    var front := rs[..i];
    var k := KeyOf(rs[i]);
    if IsPrimitive(k) && k in PrimitiveKeys(front) {
      var j :| 0 <= j < |front| && IsPrimitive(KeyOf(front[j])) && KeyOf(front[j]) == k;
      assert rs[j] == front[j];
      assert Collide(KeyOf(rs[j]), k);
    }
    if !FirstOfKey(rs, i) {
      var j :| 0 <= j < i && Collide(KeyOf(rs[j]), k);
      assert front[j] == rs[j];
    }
  }

  lemma {:induction false} FirstPerKeyMembers(rs: seq<Json>)
    requires NoNull(rs)
    ensures forall x :: x in FirstPerKey(rs) ==> x in rs
    decreases |rs|
  {
    if rs != [] {
      var n := |rs| - 1;
      FirstPerKeyMembers(rs[..n]);
    }
  }

  /** No two repositories of `rs` have keys `byKey.has` takes for the same. */
  predicate KeysDistinct(rs: seq<Json>)
    requires NoNull(rs)
  {
    forall i, j :: 0 <= i < j < |rs| ==> !Collide(KeyOf(rs[i]), KeyOf(rs[j]))
  }

  /** No two kept repositories share a key. */
  lemma {:induction false} FirstPerKeyDistinct(rs: seq<Json>)
    requires NoNull(rs)
    ensures KeysDistinct(FirstPerKey(rs))
    decreases |rs|
  {
    if rs != [] {
      var n := |rs| - 1;
      var front := rs[..n];
      FirstPerKeyDistinct(front);
      FirstPerKeyMembers(front);
      var head := FirstPerKey(front);
      if FirstOfKey(rs, n) {
        forall i | 0 <= i < |head| ensures !Collide(KeyOf(head[i]), KeyOf(rs[n])) {
          assert head[i] in front;
          var j :| 0 <= j < n && front[j] == head[i];
          assert rs[j] == head[i];
        }
        var kept := FirstPerKey(rs);
        assert kept == head + [rs[n]];
        forall i, j | 0 <= i < j < |kept| ensures !Collide(KeyOf(kept[i]), KeyOf(kept[j])) {
          assert kept[i] == head[i];
          if j < |head| {
            assert kept[j] == head[j];
            assert !Collide(KeyOf(head[i]), KeyOf(head[j]));
          } else {
            assert kept[j] == rs[n];
            assert !Collide(KeyOf(head[i]), KeyOf(rs[n]));
          }
        }
      }
    }
  }

  /** The kept repositories have the same primitive keys as all of them. */
  lemma {:induction false} FirstPerKeyCoversKeys(rs: seq<Json>)
    requires NoNull(rs)
    ensures PrimitiveKeys(FirstPerKey(rs)) == PrimitiveKeys(rs)
    decreases |rs|
  {
    if rs != [] {
      var n := |rs| - 1;
      var front := rs[..n];
      FirstPerKeyCoversKeys(front);
      PrimitiveKeysSnoc(rs, n);
      var head := FirstPerKey(front);
      if FirstOfKey(rs, n) {
        var kept := head + [rs[n]];
        assert FirstPerKey(rs) == kept;
        PrimitiveKeysSnoc(kept, |head|);
        assert kept[..|head|] == head && kept[|head|] == rs[n];
      } else {
        assert FirstPerKey(rs) == head;
        FirstOfKeyIff(rs, n);
        assert KeySet(rs[n]) <= PrimitiveKeys(front);
      }
    }
  }

  /** A repository whose key is an object or an array is always kept. */
  lemma {:induction false} FirstPerKeyKeepsReferenceKeys(rs: seq<Json>)
    requires NoNull(rs)
    ensures forall j :: 0 <= j < |rs| && !IsPrimitive(KeyOf(rs[j])) ==> rs[j] in FirstPerKey(rs)
    decreases |rs|
  {
    if rs != [] {
      var n := |rs| - 1;
      var front := rs[..n];
      FirstPerKeyKeepsReferenceKeys(front);
      forall j | 0 <= j < |rs| && !IsPrimitive(KeyOf(rs[j])) ensures rs[j] in FirstPerKey(rs) {
        if j < n {
          assert front[j] == rs[j];
        }
      }
    }
  }

  /** One more repository can only add to what is kept. */
  lemma FirstPerKeyExtends(rs: seq<Json>)
    requires NoNull(rs) && rs != []
    ensures NoNull(rs[..|rs| - 1])
    ensures FirstPerKey(rs[..|rs| - 1]) <= FirstPerKey(rs)
  {
    var m := |rs| - 1;
    var extra := if FirstOfKey(rs, m) then [rs[m]] else [];
    assert FirstPerKey(rs) == FirstPerKey(rs[..m]) + extra;
    PrefixExtends(FirstPerKey(rs[..m]), FirstPerKey(rs[..m]), extra);
  }

  /** Keeping the first of each key over a prefix gives a prefix of the whole result. */
  lemma {:induction false} FirstPerKeyPrefix(rs: seq<Json>, n: nat)
    requires NoNull(rs) && n <= |rs|
    ensures NoNull(rs[..n])
    ensures FirstPerKey(rs[..n]) <= FirstPerKey(rs)
    decreases |rs| - n
  {
    NoNullPrefix(rs, n);
    if n < |rs| {
      var m := |rs| - 1;
      FirstPerKeyExtends(rs);
      assert rs[..m][..n] == rs[..n];
      FirstPerKeyPrefix(rs[..m], n);
      PrefixTransitive(FirstPerKey(rs[..n]), FirstPerKey(rs[..m]), FirstPerKey(rs));
    } else {
      assert rs[..n] == rs;
    }
  }

  // ---------------------------------------------------------------- records

  /** `{ name, path, remote, provider, buildsUrl }`; `buildsUrl` is `None` for `null`. */
  datatype Record = Record(name: Option<Json>, path: Json, remote: Option<Json>, provider: string, buildsUrl: Option<string>)

  /** The record for one repository. */
  function ToRecord(r: Json): (rec: Record)
    requires !r.JNull?
    ensures rec.name == Prop(r, "name") && rec.remote == Prop(r, "html_url")
    ensures rec.path == JNull && rec.provider == "GitHub Actions"
    ensures rec.buildsUrl.Some? <==> Truthy(Prop(r, "html_url"))
    ensures rec.buildsUrl.Some? ==> rec.buildsUrl.value == Text(Prop(r, "html_url").value) + "/actions"
  {
    var url := Prop(r, "html_url");
    Record(Prop(r, "name"), JNull, url, "GitHub Actions",
      if Truthy(url) then Some(Text(url.value) + "/actions") else None)
  }

  /** `Array.from(byKey.values()).map(...)`. */
  function Records(kept: seq<Json>): (recs: seq<Record>)
    requires NoNull(kept)
    ensures |recs| == |kept|
    ensures forall i :: 0 <= i < |kept| ==> recs[i] == ToRecord(kept[i])
  {
    seq(|kept|, i requires 0 <= i < |kept| => ToRecord(kept[i]))
  }

  /** The mapping works repository by repository: the records of two runs are the two lists of records joined. */
  lemma RecordsAppend(a: seq<Json>, b: seq<Json>)
    requires NoNull(a) && NoNull(b)
    ensures NoNull(a + b)
    ensures Records(a + b) == Records(a) + Records(b)
  {
    assert forall i :: 0 <= i < |a + b| ==> (a + b)[i] == if i < |a| then a[i] else b[i - |a|];
  }

  /** The records of a prefix are a prefix of the records. */
  lemma RecordsPrefix(a: seq<Json>, b: seq<Json>)
    requires NoNull(b) && a <= b
    ensures NoNull(a) && Records(a) <= Records(b)
  {
    assert forall i :: 0 <= i < |a| ==> a[i] == b[i];
  }

  // ---------------------------------------------------------------- the call

  /** How the returned promise settles. */
  datatype Outcome = Resolved(records: seq<Record>) | Rejected

  /**
   * The whole call: an empty user name gives `[]`; a `null` entry of the
   * public page makes the de-duplication loop read `null.full_name`, which
   * rejects the call (the authenticated loop never keeps a `null`).
   */
  function FetchOutcome(username: string, token: string, publicPage: Fetch, authedPage: Fetch): Outcome
  {
    if username == "" then Resolved([])
    else
      var repos := Collected(username, token, publicPage, authedPage);
      if NoNull(repos) then Resolved(Records(FirstPerKey(repos))) else Rejected
  }

  /**
   * `fetchGithubRepos`, loop by loop: push the public page, push the user's
   * own repositories of the authenticated page, keep the first repository of
   * each key, then map them to records.
   */
  method FetchGithubRepos(username: string, token: string, publicPage: Fetch, authedPage: Fetch)
    returns (out: Outcome)
    ensures out == FetchOutcome(username, token, publicPage, authedPage)
  {
    if username == "" {
      return Resolved([]);
    }
    var repos: seq<Json> := [];
    if publicPage.Fetched? && PageItems(publicPage.body).Some? {
      var page := PageItems(publicPage.body).value;
      for i := 0 to |page|
        invariant repos == page[..i]
      {
        repos := repos + [page[i]];
      }
      assert page[..|page|] == page;
    }
    assert repos == PublicRepos(publicPage);
    if token != "" && authedPage.Fetched? && PageItems(authedPage.body).Some? {
      var authed := PageItems(authedPage.body).value;
      ghost var target := repos + AuthedRepos(authed, username);
      var i := 0;
      while i < |authed|
        invariant 0 <= i <= |authed|
        invariant repos + AuthedRepos(authed[i..], username) == target
      {
        var r := authed[i];
        assert authed[i..][0] == r && authed[i..][1..] == authed[i + 1..];
        var verdict := OwnerVerdict(r, username);
        if verdict == Throws {
          break;
        }
        if verdict == Take {
          repos := repos + [r];
        }
        i := i + 1;
      }
      assert i == |authed| ==> authed[i..] == [];
    }
    assert repos == Collected(username, token, publicPage, authedPage);
    out := Dedupe(repos);
  }

  /** The `byKey` loop and the final `.map`. */
  method Dedupe(repos: seq<Json>) returns (out: Outcome)
    ensures out == if NoNull(repos) then Resolved(Records(FirstPerKey(repos))) else Rejected
  {
    var seen: set<Option<Json>> := {};   // the primitive keys in `byKey`
    var kept: seq<Json> := [];           // `byKey.values()`, in insertion order
    for i := 0 to |repos|
      invariant NoNull(repos[..i])
      invariant seen == PrimitiveKeys(repos[..i])
      invariant kept == FirstPerKey(repos[..i])
    {
      var r := repos[i];
      if r.JNull? {
        return Rejected;
      }
      var prefix := repos[..i + 1];
      assert prefix[..i] == repos[..i] && prefix[i] == r;
      FirstOfKeyIff(prefix, i);
      PrimitiveKeysSnoc(prefix, i);
      var key := KeyOf(r);
      if !(IsPrimitive(key) && key in seen) {
        kept := kept + [r];
      }
      if IsPrimitive(key) {
        seen := seen + {key};
      }
    }
    assert repos[..|repos|] == repos;
    return Resolved(Records(kept));
  }

  // --------------------------------------------------------------- properties

  /** The public page's repositories come first in the result, and the result is no longer than the input. */
  lemma PublicFirst(username: string, token: string, publicPage: Fetch, authedPage: Fetch)
    requires username != ""
    requires FetchOutcome(username, token, publicPage, authedPage).Resolved?
    ensures var repos := Collected(username, token, publicPage, authedPage);
      var pub := PublicRepos(publicPage);
      && NoNull(pub)
      && Records(FirstPerKey(pub)) <= FetchOutcome(username, token, publicPage, authedPage).records
      && |FetchOutcome(username, token, publicPage, authedPage).records| <= |repos|
  {
    var repos := Collected(username, token, publicPage, authedPage);
    var pub := PublicRepos(publicPage);
    assert repos[..|pub|] == pub;
    FirstPerKeyPrefix(repos, |pub|);
    FirstPerKeyMembers(repos);
    RecordsPrefix(FirstPerKey(pub), FirstPerKey(repos));
  }

  /**
   * Every record of a resolved call has `path: null` and the `GitHub Actions`
   * provider, and takes its name, remote and builds URL from its own collected
   * repository; the records are as many as the kept repositories, whose keys
   * are pairwise distinct.
   */
  lemma ResolvedRecords(username: string, token: string, publicPage: Fetch, authedPage: Fetch)
    requires username != ""
    requires FetchOutcome(username, token, publicPage, authedPage).Resolved?
    ensures NoNull(Collected(username, token, publicPage, authedPage))
    ensures var kept := FirstPerKey(Collected(username, token, publicPage, authedPage));
      var recs := FetchOutcome(username, token, publicPage, authedPage).records;
      && |recs| == |kept|
      && KeysDistinct(kept)
      && (forall i :: 0 <= i < |recs| ==>
        && kept[i] in Collected(username, token, publicPage, authedPage)
        && recs[i].path == JNull && recs[i].provider == "GitHub Actions"
        && recs[i].name == Prop(kept[i], "name") && recs[i].remote == Prop(kept[i], "html_url")
        && (recs[i].buildsUrl.Some? <==> Truthy(recs[i].remote))
        && (recs[i].buildsUrl.Some? ==> recs[i].buildsUrl.value == Text(recs[i].remote.value) + "/actions"))
  {
    var repos := Collected(username, token, publicPage, authedPage);
    FirstPerKeyMembers(repos);
    FirstPerKeyDistinct(repos);
  }

  /** Without a token only the public page counts, whatever the authenticated page holds. */
  lemma NoTokenPublicOnly(username: string, publicPage: Fetch, authedPage: Fetch)
    ensures Collected(username, "", publicPage, authedPage) == PublicRepos(publicPage)
  {
  }

  /** A failed authenticated request is absorbed: the public page's repositories are collected as they are. */
  lemma AuthedFailureAbsorbed(username: string, token: string, publicPage: Fetch)
    ensures Collected(username, token, publicPage, Failed) == PublicRepos(publicPage)
  {
  }

  /**
   * A failed public request is absorbed: only the user's authenticated
   * repositories are collected, and the call resolves, never rejects.
   */
  lemma PublicFailureAbsorbed(username: string, token: string, authedPage: Fetch)
    requires username != ""
    ensures Collected(username, token, Failed, authedPage) == AuthedContribution(token, authedPage, username)
    ensures FetchOutcome(username, token, Failed, authedPage).Resolved?
  {
    var repos := AuthedContribution(token, authedPage, username);
    assert Collected(username, token, Failed, authedPage) == repos;
    if token != "" && authedPage.Fetched? && PageItems(authedPage.body).Some? {
      AuthedReposOwned(PageItems(authedPage.body).value, username);
    }
    assert NoNull(repos) by {
      forall i | 0 <= i < |repos| ensures !repos[i].JNull? {
        assert repos[i] in repos;
      }
    }
  }

  /** When both requests fail the call still resolves, with no records. */
  lemma FailuresAbsorbed(username: string, token: string)
    ensures FetchOutcome(username, token, Failed, Failed) == Resolved([])
  {
    assert Collected(username, token, Failed, Failed) == [];
  }

  /**
   * A repository listed on both pages is kept once, from the public page; an
   * authenticated-page repository of another owner is not kept.
   */
  lemma MergeExample()
    ensures var mine := JObj(map["full_name" := JStr("me/a"), "owner" := JObj(map["login" := JStr("me")])]);
      var other := JObj(map["full_name" := JStr("you/b"), "owner" := JObj(map["login" := JStr("you")])]);
      var repos := Collected("me", "t", Fetched(JArr([mine])), Fetched(JArr([mine, other])));
      NoNull(repos) && FirstPerKey(repos) == [mine]
  {
    var owner := JObj(map["login" := JStr("me")]);
    var mine := JObj(map["full_name" := JStr("me/a"), "owner" := owner]);
    var otherOwner := JObj(map["login" := JStr("you")]);
    var other := JObj(map["full_name" := JStr("you/b"), "owner" := otherOwner]);
    assert OwnerVerdict(mine, "me") == Take by {
      assert Prop(mine, "owner") == Some(owner) && Prop(owner, "login") == Some(JStr("me"));
    }
    assert OwnerVerdict(other, "me") == Skip by {
      assert Prop(other, "owner") == Some(otherOwner) && Prop(otherOwner, "login") == Some(JStr("you"));
      assert Lower("you")[0] == 'y' && Lower("me")[0] == 'm';
    }
    var authed := [mine, other];
    assert AuthedRepos(authed, "me") == [mine] by {
      assert authed[0] == mine && authed[1..] == [other];
      assert [other][0] == other && [other][1..] == [];
      assert AuthedRepos([other], "me") == AuthedRepos([], "me");
    }
    var repos := [mine, mine];
    assert Collected("me", "t", Fetched(JArr([mine])), Fetched(JArr([mine, other]))) == repos;
    assert KeyOf(mine) == Some(JStr("me/a")) by {
      assert Prop(mine, "full_name") == Some(JStr("me/a"));
    }
    assert !FirstOfKey(repos, 1) by {
      assert Collide(KeyOf(repos[0]), KeyOf(repos[1]));
    }
    assert repos[..1] == [mine] && [mine][..0] == [];
    assert FirstPerKey(repos) == FirstPerKey([mine]);
  }
}
