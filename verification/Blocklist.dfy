/** The gateway's fixed blocklist. */
module Blocklist {
  import opened Strings

  const BLOCKED_SUFFIXES := [
    "gov", "gov.uk", "gov.au", "gc.ca", "gob.mx", "mil", "mil.uk", "nhs.uk", "edu", "ac.uk", "edu.au", "ac.in"]

  const BLOCKED_DOMAINS := [
    "federalreserve.gov", "treasury.gov", "sec.gov", "swift.com", "jpmorganchase.com", "bankofamerica.com",
    "cdc.gov", "nih.gov", "who.int", "mayoclinic.org", "clevelandclinic.org"]

  function DropDots(s: string): string {
    if s != "" && s[|s| - 1] == '.' then DropDots(s[..|s| - 1]) else s
  }

  function NormalizeHost(hostname: string): string { DropDots(Lower(Strip(hostname))) }

  /** White space around a host, letter case and dots at its end make no difference to the blocklist. */
  lemma {:induction false} SpellingIgnored(pad: string, host: string, dots: string, end: string)
    requires Blanks(pad) && Blanks(end) && Clean(host) && host != "" && forall c :: c in dots ==> c == '.'
    ensures NormalizeHost(pad + ((host + dots) + end)) == NormalizeHost(host) == NormalizeHost(Lower(host))
    ensures IsBlocklisted(pad + ((host + dots) + end)) <==> IsBlocklisted(host)
  {
    hide Strip, Lower;
    var s := host + dots;
    assert s[|s| - 1] == (if dots == "" then host[|host| - 1] else dots[|dots| - 1]) && s[0] == host[0];
    assert dots != "" ==> dots[|dots| - 1] in dots;
    StripBetween(pad, s, end);
    StripClean(host);
    LowerOfDots(host, dots);
    DropDotsAppend(Lower(host), dots);
    LowerIdempotent(host);
    LowerIsClean(host);
    StripClean(Lower(host));
  }

  lemma StripBetween(pad: string, s: string, end: string)
    requires Blanks(pad) && Blanks(end) && Clean(s) && s != ""
    ensures Strip(pad + (s + end)) == s
  {
    LStripBlanks(pad, s + end);
    RStripBlanks(s, end);
  }

  lemma {:induction false} LowerOfDots(host: string, dots: string)
    requires forall c :: c in dots ==> c == '.'
    ensures Lower(host + dots) == Lower(host) + dots
  {
    forall i | 0 <= i < |host + dots| ensures Lower(host + dots)[i] == (Lower(host) + dots)[i] {
      LowerAt(host + dots, i);
      if i < |host| { LowerAt(host, i); } else { assert dots[i - |host|] in dots; }
    }
  }

  lemma {:induction false} DropDotsAppend(s: string, dots: string)
    requires forall c :: c in dots ==> c == '.'
    ensures DropDots(s + dots) == DropDots(s)
  {
    if dots == "" {
      assert s + dots == s;
    } else {
      var n := |dots| - 1;
      assert dots[n] in dots && (s + dots)[..|s| + n] == s + dots[..n];
      forall c | c in dots[..n] ensures c == '.' { assert c in dots; }
      DropDotsAppend(s, dots[..n]);
    }
  }

  predicate EndsWith(s: string, suffix: string) {
    |suffix| <= |s| && s[|s| - |suffix|..] == suffix
  }

  /** The host is the domain or one of its subdomains. */
  predicate Under(host: string, domain: string) { host == domain || EndsWith(host, "." + domain) }

  predicate IsBlocklisted(hostname: string) {
    var host := NormalizeHost(hostname);
    host != "" && exists d :: d in BLOCKED_DOMAINS + BLOCKED_SUFFIXES && Under(host, d)
  }

  lemma {:induction false} SplitAppend(a: string, sep: char, b: string)
    ensures Split(a + [sep] + b, sep) == Split(a, sep) + Split(b, sep)
  {
    var s := a + [sep] + b;
    if a == "" {
      assert s[1..] == b;
    } else {
      SplitAppend(a[1..], sep, b);
      assert s[0] == a[0] && s[1..] == a[1..] + [sep] + b;
      SplitHead(a, sep, Split(b, sep));
    }
  }

  lemma SplitHead(a: string, sep: char, more: seq<string>)
    requires a != ""
    ensures var rest := Split(a[1..], sep) + more;
      Split(a, sep) + more == if a[0] == sep then [""] + rest else [[a[0]] + rest[0]] + rest[1..]
  {
    var rest := Split(a[1..], sep);
    assert (rest + more)[1..] == rest[1..] + more;
  }

  lemma {:induction false} JoinSplit(s: string, sep: char)
    ensures Join(Split(s, sep), [sep]) == s
  {
    if s != "" {
      JoinSplit(s[1..], sep);
      var rest := Split(s[1..], sep);
      assert s == [s[0]] + s[1..];
      if s[0] == sep {
        assert Split(s, sep)[1..] == rest;
      } else {
        var parts := [[s[0]] + rest[0]] + rest[1..];
        assert parts[1..] == rest[1..];
        if |rest| > 1 {
          assert [s[0]] + (rest[0] + [sep] + Join(rest[1..], [sep])) ==
            ([s[0]] + rest[0]) + [sep] + Join(rest[1..], [sep]);
        }
      }
    }
  }

  lemma {:induction false} JoinAppend(a: seq<string>, b: seq<string>, sep: string)
    requires a != [] && b != []
    ensures Join(a + b, sep) == Join(a, sep) + sep + Join(b, sep)
  {
    assert (a + b)[1..] == a[1..] + b;
    if |a| > 1 {
      JoinAppend(a[1..], b, sep);
      assert a[0] + sep + (Join(a[1..], sep) + sep + Join(b, sep)) ==
        (a[0] + sep + Join(a[1..], sep)) + sep + Join(b, sep);
    } else {
      assert a[1..] + b == b;
    }
  }

  predicate LabelSuffix(h: seq<string>, d: seq<string>) { |d| <= |h| && h[|h| - |d|..] == d }

  lemma UnderHasLabels(host: string, domain: string)
    requires EndsWith(host, "." + domain)
    ensures LabelSuffix(Split(host, '.'), Split(domain, '.'))
  {
    hide Split;
    var a := host[..|host| - |domain| - 1];
    assert host == a + ['.'] + domain;
    SplitAppend(a, '.', domain);
  }

  lemma LabelsAreUnder(host: string, domain: string)
    requires LabelSuffix(Split(host, '.'), Split(domain, '.')) && |Split(domain, '.')| < |Split(host, '.')|
    ensures EndsWith(host, "." + domain)
  {
    hide Split, Join;
    var h, d := Split(host, '.'), Split(domain, '.');
    JoinSplit(host, '.');
    JoinSplit(domain, '.');
    var a := h[..|h| - |d|];
    assert h == a + d;
    JoinAppend(a, d, ['.']);
    assert host == Join(a, ['.']) + ("." + domain);
  }

  /** Matching is by whole labels: a host falls under a domain exactly when the domain's labels end the host's. */
  lemma {:induction false} UnderIsLabelSuffix(host: string, domain: string)
    ensures Under(host, domain) <==> LabelSuffix(Split(host, '.'), Split(domain, '.'))
  {
    hide Split, EndsWith, Join;
    var h, d := Split(host, '.'), Split(domain, '.');
    if EndsWith(host, "." + domain) { UnderHasLabels(host, domain); }
    if LabelSuffix(h, d) {
      if |d| < |h| {
        LabelsAreUnder(host, domain);
      } else {
        assert h == d;
        JoinSplit(host, '.');
        JoinSplit(domain, '.');
      }
    }
  }

  /** What holds for a host holds for all its subdomains. */
  lemma {:induction false} SubdomainsStayBlocked(name: string, host: string)
    requires IsBlocklisted(host) && NormalizeHost(host) == host && NormalizeHost(name + "." + host) == name + "." + host
    ensures IsBlocklisted(name + "." + host)
  {
    hide NormalizeHost, Under;
    var d :| d in BLOCKED_DOMAINS + BLOCKED_SUFFIXES && Under(host, d);
    SubdomainIsUnder(name, host, d);
  }

  lemma SubdomainIsUnder(name: string, host: string, domain: string)
    requires Under(host, domain)
    ensures Under(name + "." + host, domain)
  {
    var sub := name + "." + host;
    if host == domain {
      assert sub[|name|..] == "." + host;
    } else {
      assert sub[|sub| - |domain| - 1..] == host[|host| - |domain| - 1..];
    }
  }
}
