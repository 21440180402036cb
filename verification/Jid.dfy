/** Jabber identifiers (libextendxmpp/XMPPUtils.cc): taking `user@domain/resource` apart and putting it
    together again. */
module Jid {

  /** `strchr`: the first position of `c`, or the length if there is none. */
  function Find(s: string, c: char): (i: nat)
    ensures i <= |s|
    ensures i < |s| ==> s[i] == c
    ensures c !in s[..i]
  {
    if s == "" then 0
    else if s[0] == c then 0
    else
      var i := 1 + Find(s[1..], c);
      assert s[..i] == [s[0]] + s[1..][..i - 1];
      i
  }

  datatype Parts = Parts(user: string, domain: string, resource: string)

  /** The first '/' comes before the first '@'. */
  predicate Malformed(s: string) {
    Find(s, '/') < Find(s, '@') < |s|
  }

  /** `JID::decompose` */
  function Parse(s: string): Parts {
    var at, res := Find(s, '@'), Find(s, '/');
    if Malformed(s) then Parts("", "", "")
    else
      var cursor := if at < |s| then at + 1 else 0;
      Parts(
        if at < |s| then s[..at] else "",
        if cursor <= res then s[cursor..res] else "",
        if res < |s| then s[res + 1..] else "")
  }

  /** `JID::full` */
  function Full(p: Parts): string {
    (if p.user == "" then "" else p.user + "@") + p.domain + (if p.resource == "" then "" else "/" + p.resource)
  }

  class JID {
    var user: string
    var domain: string
    var resource: string

    constructor (jid: string)
      ensures Value() == Parse(jid)
    {
      user, domain, resource := "", "", "";
      new;
      Decompose(jid);
    }

    function Value(): Parts
      reads this
    {
      Parts(user, domain, resource)
    }

    /** `JID::decompose`: whatever was there before is replaced. */
    method Decompose(jid: string)
      modifies this
      ensures Value() == Parse(jid)
    {
      user, domain, resource := "", "", "";
      var at, res := Find(jid, '@'), Find(jid, '/');
      if at < |jid| && res < |jid| && res < at {
        return;
      }
      var cursor := 0;
      if at < |jid| {
        user := jid[cursor..at];
        cursor := at + 1;
      }
      if res == |jid| {
        domain := jid[cursor..];
        return;
      }
      domain := jid[cursor..res];
      cursor := res + 1;
      resource := jid[cursor..];
    }

    /** `JID::full` */
    method FullString() returns (s: string)
      ensures s == Full(Value())
    {
      var u := if user == "" then "" else user + "@";
      var d := if domain == "" then "" else domain;
      var r := if resource == "" then "" else "/" + resource;
      return u + d + r;
    }
  }

  // ---------- printing and parsing ----------

  lemma FindAt(s: string, c: char, i: nat)
    requires i <= |s| && c !in s[..i] && (i < |s| ==> s[i] == c)
    ensures Find(s, c) == i
  {
  }

  /** What the parts must be like for the printed form to be read back. */
  predicate Readable(p: Parts) {
    && '@' !in p.user && '/' !in p.user
    && '/' !in p.domain
    && (p.user == "" ==> '@' !in p.domain && '@' !in p.resource)
  }

  lemma ReadableIsReadBack(p: Parts)
    requires Readable(p)
    ensures Parse(Full(p)) == p
  {
    var s := Full(p);
    var bare := (if p.user == "" then "" else p.user + "@") + p.domain;
    assert s == bare + (if p.resource == "" then "" else "/" + p.resource);
    assert s[..|bare|] == bare;
    FindAt(s, '/', |bare|);
    if p.user == "" {
      assert s[..|s|] == s;
      FindAt(s, '@', |s|);
    } else {
      assert s[..|p.user|] == p.user;
      FindAt(s, '@', |p.user|);
      assert s[|p.user| + 1..|bare|] == p.domain;
    }
    if p.resource != "" {
      assert s[|bare| + 1..] == p.resource;
    }
  }

  /** Where a text is cut: nothing is left of one in which a '/' comes before the first '@'.  In any other
      the user ends at the first '@', the domain at the first '/'. */
  lemma CutPlaces(s: string, at: nat, res: nat)
    requires at <= |s| && '@' !in s[..at] && (at < |s| ==> s[at] == '@')
    requires res <= |s| && '/' !in s[..res] && (res < |s| ==> s[res] == '/')
    ensures Parse(s) ==
            if res < at < |s| then Parts("", "", "")
            else if at == |s| then Parts("", s[..res], if res < |s| then s[res + 1..] else "")
            else Parts(s[..at], s[at + 1..res], if res < |s| then s[res + 1..] else "")
  {
    FindAt(s, '@', at);
    FindAt(s, '/', res);
  }

  /** Parsing never yields a user or domain that holds its own separator. */
  lemma ParsedParts(s: string)
    ensures var p := Parse(s); '@' !in p.user && '/' !in p.user && '/' !in p.domain
  {
    var at, res := Find(s, '@'), Find(s, '/');
    if !Malformed(s) && at < |s| {
      assert forall c :: c in s[..at] ==> c in s[..res] || at > res;
    }
  }

  lemma UnreadableIsNotReadBack(p: Parts)
    requires !Readable(p)
    ensures Parse(Full(p)) != p
  {
    ParsedParts(Full(p));
    if p.user == "" && ('@' in p.domain || '@' in p.resource) {
      var s := Full(p);
      assert '@' in s;
      var at := Find(s, '@');
      assert s[..|s|] == s;
      if at == 0 {
        assert s[0] == '@';
      }
    }
  }

  /** The round trip: the three parts come back exactly if the user holds no '@' or '/', the domain no
      '/', and, where there is no user, neither domain nor resource holds an '@'. */
  lemma RoundTrip(p: Parts)
    ensures Parse(Full(p)) == p <==> Readable(p)
  {
    if Readable(p) {
      ReadableIsReadBack(p);
    } else {
      UnreadableIsNotReadBack(p);
    }
  }

  /** Well formed, with something before '@' and after '/' where these occur. */
  predicate Printable(s: string) {
    && !Malformed(s)
    && (s != "" ==> s[0] != '@')
    && (Find(s, '/') < |s| ==> Find(s, '/') < |s| - 1)
  }

  lemma PrintableIsReprinted(s: string)
    requires Printable(s)
    ensures Full(Parse(s)) == s
  {
    var at, res := Find(s, '@'), Find(s, '/');
    if at < |s| && res < |s| {
      assert at != res;
      assert s == s[..at] + "@" + s[at + 1..res] + ("/" + s[res + 1..]);
    } else if at < |s| {
      assert s == s[..at] + "@" + s[at + 1..] + "";
    } else if res < |s| {
      assert s == "" + s[..res] + ("/" + s[res + 1..]);
    } else {
      assert s == "" + s[..res] + "";
    }
  }

  lemma UnprintableIsShortened(s: string)
    requires !Printable(s)
    ensures |Full(Parse(s))| < |s|
  {
  }

  /** Printing what was parsed gives the text back exactly if it is well formed, does not begin with
      '@', and does not end in the '/' of an empty resource. */
  lemma Reprint(s: string)
    ensures Full(Parse(s)) == s <==> Printable(s)
  {
    if Printable(s) {
      PrintableIsReprinted(s);
    } else {
      UnprintableIsShortened(s);
    }
  }

  /** Parsing the printed form again changes nothing, except for texts that begin with '@' and hold another. */
  lemma Normalised(s: string)
    ensures Parse(Full(Parse(s))) == Parse(s) <==> !(s != "" && s[0] == '@' && '@' in s[1..])
  {
    var p := Parse(s);
    var at, res := Find(s, '@'), Find(s, '/');
    ParsedParts(s);
    RoundTrip(p);
    if s != "" && s[0] == '@' {
      FindAt(s, '@', 0);
      assert s[1..] == if res < |s| then p.domain + "/" + p.resource else p.domain;
    } else if at == |s| {
      assert s[..at] == s;
    }
  }
}
