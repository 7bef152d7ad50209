/**
  The check of an Issue URL (src/agent_container/family_pending.py:251-266).
 */
module IssueUrlCheck {
  import opened Utf8
  import opened PendingRecord

  const PREFIX := "https://github.com/"

  function Suffix(number: nat): string {
    "/issues/" + Decimal(number)
  }

  predicate EndsWith(s: string, suffix: string) {
    |suffix| <= |s| && s[|s| - |suffix|..] == suffix
  }

  function FindSlash(s: string): (k: nat)
    ensures k <= |s| && '/' !in s[..k] && (k < |s| ==> s[k] == '/')
  {
    if s == [] || s[0] == '/' then 0
    else
      var k := 1 + FindSlash(s[1..]);
      assert s[..k] == [s[0]] + s[1..][..k - 1];
      k
  }

  // `_validate_issue_url`.  The prefix and the suffix may share a slash; what is
  // between them is then empty.
  predicate UrlOk(url: string, number: int) {
    && 1 <= number <= MAX_ISSUE_NUMBER
    && PREFIX <= url && EndsWith(url, Suffix(number))
    && var end := |url| - |Suffix(number)|;
       var repository := if end < |PREFIX| then "" else url[|PREFIX|..end];
       var k := FindSlash(repository);
       k < |repository| && IsSlug(repository[..k]) && IsSlug(repository[k + 1..])
  }

  lemma SlugHasNoSlash(s: string)
    requires IsSlug(s)
    ensures '/' !in s
  {
  }

  lemma {:induction false} SlashBehind(owner: string, name: string)
    requires '/' !in owner
    ensures FindSlash(owner + "/" + name) == |owner|
  {
    if owner != [] {
      assert owner[0] in owner && (owner + "/" + name)[1..] == owner[1..] + "/" + name;
      SlashBehind(owner[1..], name);
    }
  }

  lemma Middle(a: string, b: string, c: string)
    ensures (a + b + c)[|a|..|a + b + c| - |c|] == b && a <= a + b + c && EndsWith(a + b + c, c)
  {
  }

  lemma UrlParts(owner: string, name: string, number: nat)
    ensures IssueUrl(owner, name, number) == PREFIX + (owner + "/" + name) + Suffix(number)
  {
    hide Decimal;
  }

  lemma Pieces(url: string, suffix: string)
    requires PREFIX <= url && EndsWith(url, suffix) && |PREFIX| <= |url| - |suffix|
    ensures url == PREFIX + url[|PREFIX|..|url| - |suffix|] + suffix
  {
  }

  lemma AcceptedUrl(url: string, number: int)
    requires UrlOk(url, number)
    ensures ValidUrl(url, number)
  {
    hide IsSlug, FindSlash, Suffix, IssueUrl, EndsWith;
    var end := |url| - |Suffix(number)|;
    var repository := if end < |PREFIX| then "" else url[|PREFIX|..end];
    var k := FindSlash(repository);
    var owner, name := repository[..k], repository[k + 1..];
    assert repository == owner + "/" + name;
    Pieces(url, Suffix(number));
    UrlParts(owner, name, number);
  }

  lemma IssueUrlIsAccepted(owner: string, name: string, number: nat)
    requires IsSlug(owner) && IsSlug(name) && 1 <= number <= MAX_ISSUE_NUMBER
    ensures UrlOk(IssueUrl(owner, name, number), number)
  {
    hide IsSlug, FindSlash, Suffix, IssueUrl, EndsWith;
    var repository := owner + "/" + name;
    UrlParts(owner, name, number);
    Middle(PREFIX, repository, Suffix(number));
    SlugHasNoSlash(owner);
    SlashBehind(owner, name);
    assert repository[..|owner|] == owner && repository[|owner| + 1..] == name;
  }

  // The check accepts exactly the URLs of an Issue of some repository.
  lemma UrlOkIsValidUrl(url: string, number: int)
    ensures UrlOk(url, number) <==> ValidUrl(url, number)
  {
    hide IsSlug, UrlOk, IssueUrl;
    if UrlOk(url, number) {
      AcceptedUrl(url, number);
    }
    if ValidUrl(url, number) {
      var owner, name :| IsSlug(owner) && IsSlug(name) && url == IssueUrl(owner, name, number);
      IssueUrlIsAccepted(owner, name, number);
    }
  }

  // ---- In full ----

  // One to 100 letters, digits, dots, underscores and hyphens, the first a letter or a
  // digit.
  ghost predicate IsName(s: string) {
    && 1 <= |s| <= 100
    && ('A' <= s[0] <= 'Z' || 'a' <= s[0] <= 'z' || '0' <= s[0] <= '9')
    && forall i :: 0 <= i < |s| ==>
         'A' <= s[i] <= 'Z' || 'a' <= s[i] <= 'z' || '0' <= s[i] <= '9' || s[i] in "._-"
  }

  ghost predicate IsUrlOf(url: string, number: int) {
    && 1 <= number <= 2_147_483_647
    && exists owner, name ::
         && IsName(owner) && IsName(name)
         && url == "https://github.com/" + owner + "/" + name + "/issues/" + Decimal(number)
  }

  lemma NameIs(s: string)
    ensures IsSlug(s) <==> IsName(s)
  {
  }

  lemma UrlsAre(url: string, number: int)
    ensures UrlOk(url, number) <==> IsUrlOf(url, number)
  {
    hide UrlOk, IsSlug, IsName;
    UrlOkIsValidUrl(url, number);
    if ValidUrl(url, number) {
      var owner, name :| IsSlug(owner) && IsSlug(name) && url == IssueUrl(owner, name, number);
      NameIs(owner);
      NameIs(name);
    }
    if IsUrlOf(url, number) {
      var owner, name :| && IsName(owner) && IsName(name)
                         && url == "https://github.com/" + owner + "/" + name + "/issues/" + Decimal(number);
      NameIs(owner);
      NameIs(name);
      assert url == IssueUrl(owner, name, number);
    }
  }

  // Which records are valid.
  lemma RecordsAre(r: Request)
    ensures ValidRequest(r) <==>
              && |r.id| == 32 && (forall i :: 0 <= i < 32 ==> r.id[i] in "0123456789abcdef") && IsName(r.project)
              && r.expiresAt == r.createdAt + 86_400
              && (r.recoveryAuditPending ==> r.state.Unknown? && r.auditEvent.None?)
              && (r.auditEvent.Some? ==> r.auditEvent.value.project == r.project && r.auditEvent.value.request == r.id)
              && (r.issue.Some? <==> r.state.Pending? || r.state.Sending? || r.state.Unknown?)
              && (r.issue.Some? ==>
                    && 1 <= |r.issue.value.title| && Utf8Length(r.issue.value.title) <= 256
                    && 1 <= |r.issue.value.body| && Utf8Length(r.issue.value.body) <= 65_536)
              && (r.number.Some? <==> r.state.Created?) && (r.url.Some? <==> r.state.Created?)
              && (r.state.Created? ==> IsUrlOf(r.url.value, r.number.value))
  {
    NameIs(r.project);
    IdIs(r.id);
    if r.number.Some? && r.url.Some? {
      UrlsAre(r.url.value, r.number.value);
      UrlOkIsValidUrl(r.url.value, r.number.value);
    }
    hide IsName, IsSlug, IsUrlOf, ValidUrl, UrlOk, IsRequestId, Utf8Length;
  }

  lemma IdIs(s: string)
    ensures IsRequestId(s) <==> |s| == 32 && forall i :: 0 <= i < 32 ==> s[i] in "0123456789abcdef"
  {
    forall c: char ensures c in "0123456789abcdef" <==> '0' <= c <= '9' || 'a' <= c <= 'f' {
    }
  }
}
