/**
 * The allow-list of video-site domains and `isYouTubeHost`, which gates all
 * of the extension's activity: a host is recognised when it is a listed
 * domain or a subdomain of one.
 */
module Domains {
  import opened Text

  /**
   * The generated list, sorted, one entry per domain. It is written as eleven
   * runs of fifteen so that the verifier can reach any entry by its run.
   */
  const YouTubeDomains: seq<string> :=
    DomainRun0
    + DomainRun1
    + DomainRun2
    + DomainRun3
    + DomainRun4
    + DomainRun5
    + DomainRun6
    + DomainRun7
    + DomainRun8
    + DomainRun9
    + DomainRun10

  const DomainRun0: seq<string> := [
    "youtu.be",
    "youtube-nocookie.com",
    "youtube.ae",
    "youtube.al",
    "youtube.am",
    "youtube.at",
    "youtube.az",
    "youtube.ba",
    "youtube.be",
    "youtube.bg",
    "youtube.bh",
    "youtube.bo",
    "youtube.by",
    "youtube.ca",
    "youtube.cat"
  ]

  const DomainRun1: seq<string> := [
    "youtube.ch",
    "youtube.cl",
    "youtube.co",
    "youtube.co.ae",
    "youtube.co.at",
    "youtube.co.cr",
    "youtube.co.hu",
    "youtube.co.id",
    "youtube.co.il",
    "youtube.co.in",
    "youtube.co.jp",
    "youtube.co.ke",
    "youtube.co.kr",
    "youtube.co.ma",
    "youtube.co.nz"
  ]

  const DomainRun2: seq<string> := [
    "youtube.co.th",
    "youtube.co.tz",
    "youtube.co.ug",
    "youtube.co.uk",
    "youtube.co.ve",
    "youtube.co.za",
    "youtube.co.zw",
    "youtube.com",
    "youtube.com.ar",
    "youtube.com.au",
    "youtube.com.az",
    "youtube.com.bd",
    "youtube.com.bh",
    "youtube.com.bo",
    "youtube.com.br"
  ]

  const DomainRun3: seq<string> := [
    "youtube.com.by",
    "youtube.com.co",
    "youtube.com.do",
    "youtube.com.ec",
    "youtube.com.ee",
    "youtube.com.eg",
    "youtube.com.es",
    "youtube.com.gh",
    "youtube.com.gr",
    "youtube.com.gt",
    "youtube.com.hk",
    "youtube.com.hn",
    "youtube.com.hr",
    "youtube.com.jm",
    "youtube.com.jo"
  ]

  const DomainRun4: seq<string> := [
    "youtube.com.kw",
    "youtube.com.lb",
    "youtube.com.lv",
    "youtube.com.ly",
    "youtube.com.mk",
    "youtube.com.mt",
    "youtube.com.mx",
    "youtube.com.my",
    "youtube.com.ng",
    "youtube.com.ni",
    "youtube.com.om",
    "youtube.com.pa",
    "youtube.com.pe",
    "youtube.com.ph",
    "youtube.com.pk"
  ]

  const DomainRun5: seq<string> := [
    "youtube.com.pt",
    "youtube.com.py",
    "youtube.com.qa",
    "youtube.com.ro",
    "youtube.com.sa",
    "youtube.com.sg",
    "youtube.com.sv",
    "youtube.com.tn",
    "youtube.com.tr",
    "youtube.com.tw",
    "youtube.com.ua",
    "youtube.com.uy",
    "youtube.com.ve",
    "youtube.cr",
    "youtube.cz"
  ]

  const DomainRun6: seq<string> := [
    "youtube.de",
    "youtube.dk",
    "youtube.ee",
    "youtube.es",
    "youtube.fi",
    "youtube.fr",
    "youtube.ge",
    "youtube.gr",
    "youtube.gt",
    "youtube.hk",
    "youtube.hr",
    "youtube.hu",
    "youtube.ie",
    "youtube.in",
    "youtube.iq"
  ]

  const DomainRun7: seq<string> := [
    "youtube.is",
    "youtube.it",
    "youtube.jo",
    "youtube.jp",
    "youtube.kr",
    "youtube.kz",
    "youtube.la",
    "youtube.lk",
    "youtube.lt",
    "youtube.lu",
    "youtube.lv",
    "youtube.ly",
    "youtube.ma",
    "youtube.md",
    "youtube.me"
  ]

  const DomainRun8: seq<string> := [
    "youtube.mk",
    "youtube.mn",
    "youtube.mx",
    "youtube.my",
    "youtube.ng",
    "youtube.ni",
    "youtube.nl",
    "youtube.no",
    "youtube.pa",
    "youtube.pe",
    "youtube.ph",
    "youtube.pk",
    "youtube.pl",
    "youtube.pr",
    "youtube.pt"
  ]

  const DomainRun9: seq<string> := [
    "youtube.qa",
    "youtube.ro",
    "youtube.rs",
    "youtube.ru",
    "youtube.sa",
    "youtube.se",
    "youtube.sg",
    "youtube.si",
    "youtube.sk",
    "youtube.sn",
    "youtube.soy",
    "youtube.sv",
    "youtube.tn",
    "youtube.tv",
    "youtube.ua"
  ]

  const DomainRun10: seq<string> := [
    "youtube.ug",
    "youtube.uy",
    "youtube.vn",
    "youtubeeducation.com",
    "youtubefanfest.com",
    "youtubegaming.com",
    "youtubego.co.id",
    "youtubego.co.in",
    "youtubego.com",
    "youtubego.com.br",
    "youtubego.id",
    "youtubego.in",
    "youtubekids.com",
    "youtubemobilesupport.com",
    "yt.be"
  ]


  /** A host is `domain` itself or ends in "." followed by `domain`. */
  predicate UnderDomain(host: string, domain: string) {
    host == domain || EndsWith(host, "." + domain)
  }

  /** The lower-cased host is one of `domains` or a subdomain of one. */
  predicate RecognizedIn(hostname: string, domains: seq<string>) {
    var host := Lower(hostname);
    host in domains || exists k | 0 <= k < |domains| :: EndsWith(host, "." + domains[k])
  }

  /** `isYouTubeHost`: recognised against the generated list. */
  predicate IsRecognizedHost(hostname: string) {
    RecognizedIn(hostname, YouTubeDomains)
  }

  /** The same test, stated per domain. */
  lemma RecognizedInSpec(hostname: string, domains: seq<string>)
    ensures RecognizedIn(hostname, domains) <==> exists k | 0 <= k < |domains| :: UnderDomain(Lower(hostname), domains[k])
  {
  }

  /**
   * `isYouTubeHost` as written, over a given list: a set lookup of the
   * lower-cased host, then a scan of the list for a dotted suffix.
   */
  method IsHostIn(hostname: string, domains: seq<string>) returns (r: bool)
    ensures r == RecognizedIn(hostname, domains)
  {
    var host := Lower(hostname);
    if host in domains {
      return true;
    }
    var i := 0;
    while i < |domains|
      invariant 0 <= i <= |domains|
      invariant forall k | 0 <= k < i :: !EndsWith(host, "." + domains[k])
    {
      if EndsWith(host, "." + domains[i]) {
        return true;
      }
      i := i + 1;
    }
    return false;
  }

  /** `isYouTubeHost` on the generated list. */
  method IsYouTubeHost(hostname: string) returns (r: bool)
    ensures r == IsRecognizedHost(hostname)
  {
    r := IsHostIn(hostname, YouTubeDomains);
  }

  /** Lower-casing distributes over a dotted prefix. */
  lemma LowerDotted(name: string, host: string)
    ensures Lower(name + "." + host) == Lower(name) + "." + Lower(host)
  {
    LowerConcat(name + ".", host);
    LowerConcat(name, ".");
  }

  /** A subdomain of a recognised host is recognised. */
  lemma SubdomainRecognized(name: string, host: string, domains: seq<string>)
    requires RecognizedIn(host, domains)
    ensures RecognizedIn(name + "." + host, domains)
  {
    LowerDotted(name, host);
    var lh := Lower(host);
    var full := Lower(name) + "." + lh;
    RecognizedInSpec(host, domains);
    var k :| 0 <= k < |domains| && UnderDomain(lh, domains[k]);
    var suffix := "." + domains[k];
    if lh == domains[k] {
      assert full[|full| - |suffix|..] == suffix;
    } else {
      assert lh[|lh| - |suffix|..] == suffix;
      assert full[|full| - |suffix|..] == lh[|lh| - |suffix|..];
    }
    assert EndsWith(full, suffix);
  }

  /**
   * A lower-case host with one dot, at index `dot`, is recognised only when
   * it or the part after its dot is listed: a listed name that the host
   * merely ends with does not count.
   */
  lemma OneDotHost(host: string, dot: nat, domains: seq<string>)
    requires Lower(host) == host
    requires dot < |host| && host[dot] == '.'
    requires forall i | 0 <= i < |host| && i != dot :: host[i] != '.'
    ensures RecognizedIn(host, domains) <==> host in domains || host[dot + 1..] in domains
  {
    if host[dot + 1..] in domains {
      var k :| 0 <= k < |domains| && domains[k] == host[dot + 1..];
      assert host[dot..] == "." + domains[k];
    }
    if exists k | 0 <= k < |domains| :: EndsWith(host, "." + domains[k]) {
      var k :| 0 <= k < |domains| && EndsWith(host, "." + domains[k]);
      var start := |host| - |domains[k]| - 1;
      assert host[start] == '.';
      assert host[dot + 1..] == domains[k];
    }
  }

  /** Every name in a run starts with 'y' (youtube…, youtu.be, yt.be). */
  lemma NotInRun0(x: string)
    requires x == "" || x[0] != 'y'
    ensures x !in DomainRun0
  {
  }

  lemma NotInRun1(x: string)
    requires x == "" || x[0] != 'y'
    ensures x !in DomainRun1
  {
  }

  lemma NotInRun2(x: string)
    requires x == "" || x[0] != 'y'
    ensures x !in DomainRun2
  {
  }

  lemma NotInRun3(x: string)
    requires x == "" || x[0] != 'y'
    ensures x !in DomainRun3
  {
  }

  lemma NotInRun4(x: string)
    requires x == "" || x[0] != 'y'
    ensures x !in DomainRun4
  {
  }

  lemma NotInRun5(x: string)
    requires x == "" || x[0] != 'y'
    ensures x !in DomainRun5
  {
  }

  lemma NotInRun6(x: string)
    requires x == "" || x[0] != 'y'
    ensures x !in DomainRun6
  {
  }

  lemma NotInRun7(x: string)
    requires x == "" || x[0] != 'y'
    ensures x !in DomainRun7
  {
  }

  lemma NotInRun8(x: string)
    requires x == "" || x[0] != 'y'
    ensures x !in DomainRun8
  {
  }

  lemma NotInRun9(x: string)
    requires x == "" || x[0] != 'y'
    ensures x !in DomainRun9
  {
  }

  lemma NotInRun10(x: string)
    requires x == "" || x[0] != 'y'
    ensures x !in DomainRun10
  {
  }

  /** A name that does not start with 'y' is not listed. */
  lemma NotListedUnlessY(x: string)
    requires x == "" || x[0] != 'y'
    ensures x !in YouTubeDomains
  {
    NotInRun0(x);
    NotInRun1(x);
    NotInRun2(x);
    NotInRun3(x);
    NotInRun4(x);
    NotInRun5(x);
    NotInRun6(x);
    NotInRun7(x);
    NotInRun8(x);
    NotInRun9(x);
    NotInRun10(x);
  }

  lemma MainDomainListed()
    ensures "youtube.com" in YouTubeDomains
  {
    assert DomainRun2[7] == "youtube.com";
  }

  /** A host that merely ends in a listed name, without the dot, is not recognised. */
  lemma BareSuffixExample()
    ensures !IsRecognizedHost("evilyoutube.com")
  {
    var host := "evilyoutube.com";
    assert Lower(host) == host;
    OneDotHost(host, 11, YouTubeDomains);
    assert host[12..] == "com";
    NotListedUnlessY("com");
    NotListedUnlessY(host);
  }

  /** A listed domain is recognised. */
  lemma ListedRecognized(hostname: string, domains: seq<string>)
    requires Lower(hostname) in domains
    ensures RecognizedIn(hostname, domains)
  {
  }

  /** A subdomain of a listed domain, written in any case, is recognised. */
  lemma SubdomainOfListed(domains: seq<string>)
    requires "youtube.com" in domains
    ensures RecognizedIn("www.youtube.com", domains)
    ensures RecognizedIn("M.YouTube.com", domains)
  {
    assert Lower("youtube.com") == "youtube.com";
    assert Lower("YouTube.com") == "youtube.com";
    SubdomainRecognized("www", "youtube.com", domains);
    assert "www" + "." + "youtube.com" == "www.youtube.com";
    SubdomainRecognized("M", "YouTube.com", domains);
    assert "M" + "." + "YouTube.com" == "M.YouTube.com";
  }

  lemma SubdomainExamples()
    ensures IsRecognizedHost("www.youtube.com")
    ensures IsRecognizedHost("M.YouTube.com")
  {
    MainDomainListed();
    SubdomainOfListed(YouTubeDomains);
  }
}
