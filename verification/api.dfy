/** The address of the analytics endpoint, built from the account's name and id. */
module Api {
  import opened Options
  import Texts

  const Scheme: string := "https://"
  const HostAndPrefix: string := ".udemy.com/api-2.0/organizations/"
  const ActivityPath: string := "/analytics/user-course-activity/"

  /** `f"https://{account_name}.udemy.com/api-2.0/organizations/{account_id}/analytics/user-course-activity/"`.
      For an account name without a dot (a DNS label), the address gives back the name
      and the id it was built from. */
  function ApiUrl(accountName: string, accountId: string): (url: string)
    ensures '.' !in accountName ==> ParseApiUrl(url) == Some((accountName, accountId))
  {
    ParsesBack(accountName, accountId);
    Scheme + accountName + HostAndPrefix + accountId + ActivityPath
  }

  lemma ParsesBack(accountName: string, accountId: string)
    ensures '.' !in accountName ==>
      ParseApiUrl(Scheme + accountName + HostAndPrefix + accountId + ActivityPath) == Some((accountName, accountId))
  {
    if '.' !in accountName {
      ParseFramedOf(Scheme, accountName, HostAndPrefix, accountId, ActivityPath);
    }
  }

  /** The middle of `s` when it starts with `front` and ends with `back`, the two not
      overlapping. */
  function Between(s: string, front: string, back: string): (m: Option<string>)
    ensures m.Some? ==> s == front + m.value + back
  {
    if front <= s && |s| >= |front| + |back| && s[|s| - |back|..] == back then
      assert s == s[..|front|] + s[|front|..|s| - |back|] + s[|s| - |back|..];
      Some(s[|front|..|s| - |back|])
    else None
  }

  lemma BetweenOf(front: string, m: string, back: string)
    ensures Between(front + m + back, front, back) == Some(m)
  {
    var s := front + m + back;
    assert s[..|front|] == front;
    assert s[|s| - |back|..] == back;
    assert s[|front|..|s| - |back|] == m;
  }

  /** Reads `scheme + name + host + id + path` back into its name and id: the name runs
      up to the first `.` after the scheme, the id sits between `host` and `path`. */
  function ParseFramed(url: string, scheme: string, host: string, path: string): Option<(string, string)>
  {
    match Between(url, scheme, "")
    case None => None
    case Some(rest) =>
      var name := Texts.UpTo(rest, '.');
      match Between(rest[|name|..], host, path)
      case None => None
      case Some(id) => Some((name, id))
  }

  /** Reads the account name and id back out of an endpoint address. */
  function ParseApiUrl(url: string): Option<(string, string)>
  {
    ParseFramed(url, Scheme, HostAndPrefix, ActivityPath)
  }

  lemma ParseFramedSound(url: string, scheme: string, host: string, path: string)
    requires ParseFramed(url, scheme, host, path).Some?
    ensures var (name, id) := ParseFramed(url, scheme, host, path).value;
      url == scheme + name + host + id + path
  {
    var rest := Between(url, scheme, "").value;
    var name := Texts.UpTo(rest, '.');
    var tail := rest[|name|..];
    var id := Between(tail, host, path).value;
    Assemble(url, scheme, rest, name, tail, host, id, path);
  }

  /** The parser's pieces put back together: the scheme, then the name and the tail
      the name was cut from, then the tail's three parts. */
  lemma Assemble(url: string, scheme: string, rest: string, name: string, tail: string,
                 host: string, id: string, path: string)
    requires url == scheme + rest + "" && name <= rest && tail == rest[|name|..]
    requires tail == host + id + path
    ensures url == scheme + name + host + id + path
  {
    assert rest == name + tail;
  }

  lemma ParseFramedOf(scheme: string, name: string, host: string, id: string, path: string)
    requires '.' !in name && |host| > 0 && host[0] == '.'
    ensures ParseFramed(scheme + name + host + id + path, scheme, host, path) == Some((name, id))
  {
    var url := scheme + name + host + id + path;
    var tail := host + id + path;
    var rest := name + tail;
    assert url == scheme + rest + "";
    BetweenOf(scheme, rest, "");
    assert Between(url, scheme, "") == Some(rest);
    Texts.UpToOf(name, '.', tail);
    assert rest[|name|..] == tail;
    BetweenOf(host, id, path);
    assert Between(rest[|Texts.UpTo(rest, '.')|..], host, path) == Some(id);
  }

  /** Every address the parser accepts is the address of the pair it returns. */
  lemma ParseApiUrlSound(url: string)
    requires ParseApiUrl(url).Some?
    ensures ApiUrl(ParseApiUrl(url).value.0, ParseApiUrl(url).value.1) == url
  {
    ParseFramedSound(url, Scheme, HostAndPrefix, ActivityPath);
  }

  /** Different dot-free accounts are sent to different addresses. */
  lemma ApiUrlInjective(name1: string, id1: string, name2: string, id2: string)
    requires '.' !in name1 && '.' !in name2
    requires ApiUrl(name1, id1) == ApiUrl(name2, id2)
    ensures name1 == name2 && id1 == id2
  {
  }
}
