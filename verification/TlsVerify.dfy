/**
 * Certificate name matching of ext/tls_verify.c: the wildcard rule of section
 * 6.4.3 of RFC 6125, the subjectAltName scan, and the fall back to the common
 * name of its section 6.4.4. Parsing of addresses and of certificates is an input.
 */
module TlsVerify {
  import opened Wrappers

  /** What strlen sees of a buffer: everything before its first NUL. */
  type CString = s: string | forall k | 0 <= k < |s| :: s[k] != '\0'

  // ------------------------------------------------------------ the string library

  function LowerChar(c: char): char {
    if 'A' <= c <= 'Z' then 'a' + (c - 'A') else c
  }

  /** strcasecmp(a, b) == 0 in the C locale. */
  predicate EqNoCase(a: string, b: string) {
    |a| == |b| && forall k | 0 <= k < |a| :: LowerChar(a[k]) == LowerChar(b[k])
  }

  /** The same character, or the two forms of one ASCII letter. */
  predicate SameLetter(a: char, b: char) {
    || a == b
    || ('A' <= a <= 'Z' && b as int == a as int + 32)
    || ('A' <= b <= 'Z' && a as int == b as int + 32)
  }

  predicate SameButForCase(a: string, b: string) {
    |a| == |b| && forall k | 0 <= k < |a| :: SameLetter(a[k], b[k])
  }

  lemma LowerCharMeaning(a: char, b: char)
    ensures LowerChar(a) == LowerChar(b) <==> SameLetter(a, b)
  {
  }

  /** strcasecmp compares letter by letter and overlooks case and nothing else. */
  lemma EqNoCaseMeaning(a: string, b: string)
    ensures EqNoCase(a, b) <==> SameButForCase(a, b)
  {
    hide LowerChar, SameLetter;
    if |a| == |b| {
      forall k | 0 <= k < |a|
        ensures LowerChar(a[k]) == LowerChar(b[k]) <==> SameLetter(a[k], b[k])
      {
        LowerCharMeaning(a[k], b[k]);
      }
    }
  }

  predicate DotFree(s: string) {
    forall k | 0 <= k < |s| :: s[k] != '.'
  }

  /** strchr(s, '.'), with |s| in the place of a null pointer. */
  function FindDot(s: string): (i: nat)
    ensures i <= |s| && DotFree(s[..i]) && (i < |s| ==> s[i] == '.')
  {
    if s == "" || s[0] == '.' then 0
    else
      var rest := FindDot(s[1..]);
      assert s[..rest + 1] == [s[0]] + s[1..][..rest];
      rest + 1
  }

  lemma FindDotIsFirst(s: string, i: nat)
    requires i < |s| && s[i] == '.' && DotFree(s[..i])
    ensures FindDot(s) == i
  {
    assert forall k | 0 <= k < i :: s[k] == s[..i][k];
    assert forall k | 0 <= k < FindDot(s) :: s[k] == s[..FindDot(s)][k];
  }

  /** s[i] of a C string, whose terminator may be read. */
  function At(s: CString, i: nat): char
    requires i <= |s|
  {
    if i < |s| then s[i] else '\0'
  }

  // ----------------------------------------------------------------- name matching

  /** Zero of tls_match_name is true here. */
  function MatchName(cert: CString, name: CString): (ok: bool) {
    if EqNoCase(cert, name) then true
    else if At(cert, 0) != '*' then false
    else
      var d: CString := cert[1..];
      if At(d, 0) == '\0' then false
      else if At(d, 0) != '.' then false
      else if At(d, 1) == '.' then false
      else
        var nextDot := 1 + FindDot(d[1..]);
        if nextDot == |d| then false
        else if At(d, nextDot + 1) == '.' then false
        else
          var dot := FindDot(name);
          if At(name, 0) == '.' then false
          else if dot == |name| || |name| - dot == 1 then false
          else EqNoCase(d, name[dot..])
  }

  /** The domain after a wildcard: ".label." and then anything that does not start with a dot. */
  ghost predicate AllowedDomain(d: string) {
    exists head: string, rest: string ::
      d == "." + head + "." + rest && head != "" && DotFree(head) && !StartsWithDot(rest)
  }

  predicate StartsWithDot(s: string) {
    s != "" && s[0] == '.'
  }

  /** The name is one label in the place of the asterisk, and the domain. */
  ghost predicate WildcardCovers(cert: string, name: string) {
    exists d: string, head: string, domain: string ::
      && cert == "*" + d && AllowedDomain(d)
      && name == head + domain && head != "" && DotFree(head)
      && SameButForCase(d, domain)
  }

  /** The rejections of the source, on the domain after a wildcard. */
  predicate PassesChecks(d: CString) {
    && |d| >= 2 && d[0] == '.' && d[1] != '.'
    && 1 + FindDot(d[1..]) < |d| && At(d, 2 + FindDot(d[1..])) != '.'
  }

  /** The checks leave exactly the allowed domains. */
  lemma DomainIsAllowed(d: CString)
    ensures AllowedDomain(d) <==> PassesChecks(d)
  {
    if AllowedDomain(d) {
      AllowedPasses(d);
    }
    if PassesChecks(d) {
      PassingIsAllowed(d);
    }
  }

  lemma AllowedPasses(d: CString)
    requires AllowedDomain(d)
    ensures PassesChecks(d)
  {
    var head: string, rest: string :| d == "." + head + "." + rest && head != "" && DotFree(head) && !StartsWithDot(rest);
    assert d[1..] == head + "." + rest;
    assert d[1..][..|head|] == head;
    FindDotIsFirst(d[1..], |head|);
    assert d[2 + |head|..] == rest;
  }

  lemma PassingIsAllowed(d: CString)
    requires PassesChecks(d)
    ensures AllowedDomain(d)
  {
    var t := d[1..];
    var n := FindDot(t);
    var head, rest := t[..n], t[n + 1..];
    assert t == head + "." + rest;
    assert d == "." + t;
    assert d == "." + head + "." + rest;
    assert head != "" by {
      assert t[0] == d[1];
    }
    assert !StartsWithDot(rest) by {
      assert rest != "" ==> rest[0] == d[n + 2];
    }
  }

  /** Equal but for case, or covered by an allowed wildcard: nothing else matches. */
  lemma MatchNameMeaning(cert: CString, name: CString)
    ensures MatchName(cert, name) <==> SameButForCase(cert, name) || WildcardCovers(cert, name)
  {
    EqNoCaseMeaning(cert, name);
    if WildcardCovers(cert, name) {
      CoveredMatches(cert, name);
    }
    if MatchName(cert, name) && !EqNoCase(cert, name) {
      MatchIsCovered(cert, name);
    }
  }

  lemma CoveredMatches(cert: CString, name: CString)
    requires WildcardCovers(cert, name)
    ensures MatchName(cert, name)
  {
    var d: string, head: string, domain: string :|
      && cert == "*" + d && AllowedDomain(d)
      && name == head + domain && head != "" && DotFree(head)
      && SameButForCase(d, domain);
    hide SameLetter, LowerChar, AllowedDomain;
    EqNoCaseMeaning(d, domain);
    assert d == cert[1..];
    DomainIsAllowed(d);
    DotsAgree(d, domain, 0);
    assert name[..|head|] == head && name[|head|..] == domain;
    FindDotIsFirst(name, |head|);
  }

  lemma MatchIsCovered(cert: CString, name: CString)
    requires MatchName(cert, name) && !EqNoCase(cert, name)
    ensures WildcardCovers(cert, name)
  {
    hide SameLetter, LowerChar, AllowedDomain;
    var d, dot := cert[1..], FindDot(name);
    DomainIsAllowed(d);
    EqNoCaseMeaning(d, name[dot..]);
    assert cert == "*" + d && name == name[..dot] + name[dot..];
  }

  lemma DotsAgree(a: string, b: string, k: nat)
    requires EqNoCase(a, b) && k < |a|
    ensures a[k] == '.' <==> b[k] == '.'
  {
    assert LowerChar(a[k]) == LowerChar(b[k]);
  }

  /** Case plays no part, in the certificate or in the name. */
  lemma MatchIsCaseBlind(cert: CString, name: CString, cert': CString, name': CString)
    requires SameButForCase(cert, cert') && SameButForCase(name, name')
    ensures MatchName(cert, name) <==> MatchName(cert', name')
  {
    EqNoCaseMeaning(cert, cert');
    EqNoCaseMeaning(name, name');
    EqNoCaseMeaning(cert', cert);
    EqNoCaseMeaning(name', name);
    if MatchName(cert, name) {
      FoldedMatch(cert, name, cert', name');
    }
    if MatchName(cert', name') {
      FoldedMatch(cert', name', cert, name);
    }
  }

  lemma FoldedMatch(cert: CString, name: CString, cert': CString, name': CString)
    requires EqNoCase(cert, cert') && EqNoCase(name, name') && MatchName(cert, name)
    ensures MatchName(cert', name')
  {
    if !EqNoCase(cert, name) {
      var d, d' := cert[1..], cert'[1..];
      assert LowerChar(cert[0]) == LowerChar(cert'[0]);
      assert EqNoCase(d, d');
      assert EqNoCase(d[1..], d'[1..]);
      FoldedDot(d[1..], d'[1..]);
      FoldedDot(name, name');
      var n, dot := 1 + FindDot(d[1..]), FindDot(name);
      DotsAgree(d, d', 0);
      DotsAgree(d, d', 1);
      if n + 1 < |d| {
        DotsAgree(d, d', n + 1);
      }
      DotsAgree(name, name', 0);
      assert EqNoCase(name[dot..], name'[dot..]);
    }
  }

  lemma FoldedDot(a: string, b: string)
    requires EqNoCase(a, b)
    ensures FindDot(a) == FindDot(b)
  {
    var i, j := FindDot(a), FindDot(b);
    assert forall k | 0 <= k < i :: a[k] == a[..i][k];
    assert forall k | 0 <= k < j :: b[k] == b[..j][k];
    if i < |a| {
      DotsAgree(a, b, i);
    }
    if j < |b| {
      DotsAgree(a, b, j);
    }
  }

  /** The non-empty labels of a name. */
  function Labels(s: string): nat
    decreases |s|
  {
    if s == "" then 0
    else if s[0] == '.' then Labels(s[1..])
    else
      assert FindDot(s) > 0 by { FindDotPastFirst(s); }
      1 + Labels(s[FindDot(s)..])
  }

  lemma FindDotPastFirst(s: string)
    requires s != "" && s[0] != '.'
    ensures FindDot(s) > 0
  {
  }

  lemma LabelThenRest(head: string, rest: string)
    requires head != "" && DotFree(head) && (rest == "" || StartsWithDot(rest))
    ensures Labels(head + rest) == 1 + Labels(rest)
  {
    var s := head + rest;
    assert s[..|head|] == head && s[|head|..] == rest;
    if rest == "" {
      assert forall k | 0 <= k < |s| :: s[k] != '.';
    } else {
      FindDotIsFirst(s, |head|);
    }
  }

  lemma {:induction false} FoldedLabels(a: string, b: string)
    requires EqNoCase(a, b)
    ensures Labels(a) == Labels(b)
    decreases |a|
  {
    if a != "" {
      DotsAgree(a, b, 0);
      if a[0] == '.' {
        FoldedLabels(a[1..], b[1..]);
      } else {
        FoldedDot(a, b);
        FindDotPastFirst(a);
        FoldedLabels(a[FindDot(a)..], b[FindDot(b)..]);
      }
    }
  }

  /** The domain of a wildcard ends right after its second dot, as in "*.bar.". */
  predicate EndsAtSecondDot(d: CString)
    requires PassesChecks(d)
  {
    At(d, 2 + FindDot(d[1..])) == '\0'
  }

  /** An allowed domain has two labels exactly if something follows its second dot. */
  lemma AllowedLabels(d: CString)
    requires PassesChecks(d)
    ensures Labels(d) >= 1
    ensures Labels(d) >= 2 <==> !EndsAtSecondDot(d)
  {
    var t := d[1..];
    var n := FindDot(t);
    assert t == t[..n] + t[n..] && t[n..][1..] == d[2 + n..];
    FindDotPastFirst(t);
    LabelThenRest(t[..n], t[n..]);
    assert Labels(d) == 1 + Labels(d[2 + n..]);
    assert d[2 + n..] != "" ==> d[2 + n..][0] == d[2 + n];
  }

  /** A wildcard stands for exactly one label: what matches has as many labels as the pattern. */
  lemma MatchKeepsLabels(cert: CString, name: CString)
    requires MatchName(cert, name)
    ensures Labels(name) == Labels(cert)
    ensures !EqNoCase(cert, name) ==> PassesChecks(cert[1..])
    ensures !EqNoCase(cert, name) ==> (Labels(name) >= 3 <==> !EndsAtSecondDot(cert[1..]))
  {
    if EqNoCase(cert, name) {
      FoldedLabels(cert, name);
    } else {
      MatchNameMeaning(cert, name);
      var d: string, head: string, domain: string :|
        && cert == "*" + d && AllowedDomain(d)
        && name == head + domain && head != "" && DotFree(head)
        && SameButForCase(d, domain);
      EqNoCaseMeaning(cert, name);
      EqNoCaseMeaning(d, domain);
      assert cert[1..] == d;
      DomainIsAllowed(d);
      DotsAgree(d, domain, 0);
      LabelThenRest("*", d);
      LabelThenRest(head, domain);
      FoldedLabels(d, domain);
      AllowedLabels(d);
    }
  }

  /** A wildcard of a top-level domain matches nothing but itself. */
  lemma TopLevelWildcardIsRejected(tld: CString, name: CString)
    requires DotFree(tld)
    ensures MatchName("*." + tld, name) <==> SameButForCase("*." + tld, name)
  {
    hide MatchName, SameButForCase, AllowedDomain;
    MatchNameMeaning("*." + tld, name);
    NoSecondDot(tld);
    assert ("*." + tld)[1..] == "." + tld;
    assert forall d: string :: "*." + tld == "*" + d ==> ("*" + d)[1..] == d;
  }

  /** Yet with a dot at the end it matches every name of one more label. */
  lemma TopLevelWildcardWithDot(tld: CString, head: CString)
    requires tld != "" && DotFree(tld) && head != "" && DotFree(head)
    ensures var d := "." + tld + "."; MatchName("*" + d, head + d) && Labels("*" + d) == 2
  {
    hide MatchName, AllowedDomain, Labels;
    var d: CString := "." + tld + ".";
    EndingDotIsAllowed(tld);
    MatchNameMeaning("*" + d, head + d);
    LabelThenRest("*", d);
  }

  lemma NoSecondDot(tld: CString)
    requires DotFree(tld)
    ensures !AllowedDomain("." + tld)
  {
    var d: CString := "." + tld;
    DomainIsAllowed(d);
    assert d[1..] == tld;
  }

  lemma EndingDotIsAllowed(tld: CString)
    requires tld != "" && DotFree(tld)
    ensures var d: CString := "." + tld + "."; AllowedDomain(d) && Labels(d) == 1
  {
    var d: CString := "." + tld + ".";
    assert d[1..] == tld + "." && d[1..][..|tld|] == tld;
    FindDotIsFirst(d[1..], |tld|);
    assert d[1] == tld[0];
    DomainIsAllowed(d);
    AllowedLabels(d);
  }

  /** For instance. */
  lemma TopLevelWildcardMatches()
    ensures MatchName("*.bar.", "foo.bar.")
  {
    hide MatchName, Labels;
    TopLevelWildcardWithDot("bar", "foo");
    assert "." + "bar" + "." == ".bar.";
    assert "*" + ".bar." == "*.bar." && "foo" + ".bar." == "foo.bar.";
  }

  function Dots(s: string): nat {
    if s == "" then 0 else (if s[0] == '.' then 1 else 0) + Dots(s[1..])
  }

  lemma {:induction false} DotsAppend(a: string, b: string)
    ensures Dots(a + b) == Dots(a) + Dots(b)
  {
    if a == "" {
      assert a + b == b;
    } else {
      assert (a + b)[1..] == a[1..] + b;
      DotsAppend(a[1..], b);
    }
  }

  lemma {:induction false} DotFreeHasNone(s: string)
    requires DotFree(s)
    ensures Dots(s) == 0
  {
    if s != "" {
      DotFreeHasNone(s[1..]);
    }
  }

  lemma {:induction false} FoldedDots(a: string, b: string)
    requires EqNoCase(a, b)
    ensures Dots(a) == Dots(b)
  {
    if a != "" {
      DotsAgree(a, b, 0);
      FoldedDots(a[1..], b[1..]);
    }
  }

  /** A match never crosses a dot: both sides have as many, a wildcard at least two. */
  lemma MatchKeepsDepth(cert: CString, name: CString)
    requires MatchName(cert, name)
    ensures Dots(name) == Dots(cert)
    ensures !EqNoCase(cert, name) ==> Dots(name) >= 2
  {
    if EqNoCase(cert, name) {
      FoldedDots(cert, name);
    } else {
      MatchNameMeaning(cert, name);
      var d: string, head: string, domain: string :|
        && cert == "*" + d && AllowedDomain(d)
        && name == head + domain && head != "" && DotFree(head)
        && SameButForCase(d, domain);
      EqNoCaseMeaning(cert, name);
      EqNoCaseMeaning(d, domain);
      DotsAppend(head, domain);
      DotFreeHasNone(head);
      FoldedDots(d, domain);
      assert cert[1..] == d;
      AllowedDots(d);
    }
  }

  lemma AllowedDots(d: string)
    requires AllowedDomain(d)
    ensures Dots(d) >= 2
  {
    var first: string, rest: string :|
      d == "." + first + "." + rest && first != "" && DotFree(first) && !StartsWithDot(rest);
    assert d[1..] == first + ("." + rest);
    DotsAppend(first, "." + rest);
  }

  // ------------------------------------------------------------------ the host name

  type Quad = a: seq<Byte> | |a| == 4 witness [0, 0, 0, 0]
  type Hextets = a: seq<Byte> | |a| == 16 witness seq(16, k => 0)

  /** The name to check, with what inet_pton makes of it for the two families. */
  datatype Host = Host(name: CString, v4: Option<Quad>, v6: Option<Hextets>) {
    predicate IsAddress() {
      v4.Some? || v6.Some?
    }

    function Address(): seq<Byte> {
      match v4
      case Some(a) => a
      case None => if v6.Some? then v6.value else []
    }
  }

  // ------------------------------------------------------------- the subjectAltName

  /**
   * The fields the scan reads. A length is what the library reports of a string, and
   * `text` is the C string its data begins with; `octets` are the data of an address.
   */
  datatype GeneralName =
    | DnsName(ia5: bool, length: int, text: CString)
    | IpName(length: int, octets: seq<Byte>)
    | OtherName

  predicate Known(g: GeneralName) {
    g.DnsName? || g.IpName?
  }

  predicate Sought(g: GeneralName, h: Host) {
    if h.IsAddress() then g.IpName? else g.DnsName?
  }

  /** The entries that end the scan with an error. */
  predicate Malformed(g: GeneralName, h: Host) {
    match g
    case DnsName(ia5, length, text) => !h.IsAddress() && ia5 && (length != |text| || text == " ")
    case IpName(length, octets) => h.IsAddress() && length < 0
    case OtherName => false
  }

  predicate Matches(g: GeneralName, h: Host) {
    match g
    case DnsName(ia5, length, text) =>
      !h.IsAddress() && ia5 && length == |text| && text != " " && MatchName(text, h.name)
    case IpName(length, octets) =>
      h.IsAddress() && length == |octets| && octets == h.Address()
    case OtherName => false
  }

  /** Some entry matches and no malformed entry of the sought type stands before it. */
  ghost predicate SanMatches(san: seq<GeneralName>, h: Host) {
    exists i | 0 <= i < |san| ::
      Matches(san[i], h) && forall j | 0 <= j < i :: !Malformed(san[j], h)
  }

  /** Some entry is malformed and no match stands before it. */
  ghost predicate SanFails(san: seq<GeneralName>, h: Host) {
    exists i | 0 <= i < |san| ::
      Malformed(san[i], h) && forall j | 0 <= j < i :: !Matches(san[j], h)
  }

  predicate AnyKnown(san: seq<GeneralName>) {
    exists g | g in san :: Known(g)
  }

  method CheckSubjectAltName(stack: Option<seq<GeneralName>>, h: Host)
    returns (rv: int, altMatch: bool, altExists: bool)
    ensures rv == 0 || rv == -1
    ensures stack.None? ==> rv == 0 && !altMatch && !altExists
    ensures stack.Some? ==> (rv == -1 <==> SanFails(stack.value, h))
    ensures stack.Some? ==> (altMatch <==> SanMatches(stack.value, h))
    ensures stack.Some? ==> (altExists <==> AnyKnown(stack.value))
  {
    rv, altMatch, altExists := 0, false, false;
    if stack.None? {
      return;
    }
    var san := stack.value;
    for i := 0 to |san|
      invariant rv == 0 && !altMatch
      invariant altExists <==> AnyKnown(san[..i])
      invariant forall j | 0 <= j < i :: !Malformed(san[j], h) && !Matches(san[j], h)
    {
      var g := san[i];
      assert san[..i + 1] == san[..i] + [g];
      if Known(g) {
        altExists := true;
        assert g in san;
      }
      if !Sought(g, h) {
        continue;
      }
      match g
      case DnsName(ia5, length, text) =>
        if ia5 {
          if length < 0 || length != |text| {
            rv := -1;
            break;
          }
          if text == " " {
            rv := -1;
            break;
          }
          if MatchName(text, h.name) {
            altMatch := true;
            break;
          }
        }
      case IpName(length, octets) =>
        if length < 0 {
          rv := -1;
          break;
        }
        if length == |h.Address()| && length == |octets| && octets == h.Address() {
          altMatch := true;
          break;
        }
    }
    assert san[..|san|] == san;
  }

  /** A scan never both matches and fails. */
  lemma ScanIsDecided(san: seq<GeneralName>, h: Host)
    ensures !(SanMatches(san, h) && SanFails(san, h))
    ensures SanMatches(san, h) || SanFails(san, h) ==> AnyKnown(san)
  {
    if i :| 0 <= i < |san| && (Matches(san[i], h) || Malformed(san[i], h)) {
      assert san[i] in san;
    }
  }

  /** The entry that ends the scan, or |san|. */
  lemma Decision(san: seq<GeneralName>, h: Host) returns (i: nat)
    ensures i <= |san|
    ensures SanMatches(san, h) <==> i < |san| && Matches(san[i], h)
    ensures SanFails(san, h) <==> i < |san| && Malformed(san[i], h)
    ensures i < |san| <==> SanMatches(san, h) || SanFails(san, h)
    ensures forall j | 0 <= j < i :: !Malformed(san[j], h) && !Matches(san[j], h)
  {
    i := 0;
    while i < |san| && !Malformed(san[i], h) && !Matches(san[i], h)
      invariant i <= |san|
      invariant forall j | 0 <= j < i :: !Malformed(san[j], h) && !Matches(san[j], h)
    {
      i := i + 1;
    }
  }

  /** The scan of a longer list: the later part counts only when the earlier one decides nothing. */
  lemma ScanComposes(a: seq<GeneralName>, b: seq<GeneralName>, h: Host)
    ensures SanMatches(a + b, h) <==> SanMatches(a, h) || (!SanFails(a, h) && SanMatches(b, h))
    ensures SanFails(a + b, h) <==> SanFails(a, h) || (!SanMatches(a, h) && SanFails(b, h))
  {
    ScanIsDecided(a, h);
    ScanIsDecided(b, h);
    hide Malformed, Matches, SanMatches, SanFails;
    var i := Decision(a, h);
    var j := Decision(b, h);
    var k := Decision(a + b, h);
    assert forall m | 0 <= m < |a| :: (a + b)[m] == a[m];
    assert forall m | 0 <= m < |b| :: (a + b)[|a| + m] == b[m];
    if i == |a| && j < |b| {
      assert (a + b)[|a| + j] == b[j];
    }
    assert k == if i < |a| then i else |a| + j;
  }

  /** Entries of the other type are invisible to the scan, whatever they hold. */
  lemma {:induction false} OtherTypesAreSkipped(san: seq<GeneralName>, h: Host)
    ensures SanMatches(OfSoughtType(san, h), h) <==> SanMatches(san, h)
    ensures SanFails(OfSoughtType(san, h), h) <==> SanFails(san, h)
  {
    hide SanMatches, SanFails, Sought;
    if san != [] {
      var first, rest, kept := [san[0]], san[1..], OfSoughtType(san[1..], h);
      OtherTypesAreSkipped(rest, h);
      OneEntry(san[0], h);
      ScanComposes(first, rest, h);
      ScanComposes(first, kept, h);
      assert san == first + rest;
      assert OfSoughtType(san, h) == if Sought(san[0], h) then first + kept else kept;
    }
  }

  lemma OneEntry(g: GeneralName, h: Host)
    ensures SanMatches([g], h) || SanFails([g], h) ==> Sought(g, h)
  {
    assert [g][0] == g;
  }

  function OfSoughtType(san: seq<GeneralName>, h: Host): seq<GeneralName> {
    if san == [] then []
    else (if Sought(san[0], h) then [san[0]] else []) + OfSoughtType(san[1..], h)
  }

  // ---------------------------------------------------------------- the common name

  /** No subject, no common name in it, or its reported length and the C string it begins with. */
  datatype Subject = NoSubject | NoCommonName | CommonName(length: nat, text: CString)

  predicate CnMalformed(cn: Subject) {
    cn.CommonName? && cn.length != |cn.text|
  }

  predicate CnMatches(cn: Subject, h: Host) {
    && cn.CommonName? && cn.length == |cn.text|
    && if h.IsAddress() then cn.text == h.name else MatchName(cn.text, h.name)
  }

  method CheckCommonName(cn: Subject, h: Host) returns (rv: int, cnMatch: bool)
    ensures rv == if CnMalformed(cn) then -1 else 0
    ensures cnMatch <==> CnMatches(cn, h)
  {
    rv, cnMatch := 0, false;
    match cn
    case NoSubject => return;
    case NoCommonName => return;
    case CommonName(length, text) =>
      if length != |text| {
        rv := -1;
        return;
      }
      if h.IsAddress() {
        cnMatch := text == h.name;
        return;
      }
      cnMatch := MatchName(text, h.name);
  }

  // ------------------------------------------------------------------ the whole check

  datatype Certificate = Certificate(san: Option<seq<GeneralName>>, subject: Subject)

  function Entries(c: Certificate): seq<GeneralName> {
    match c.san
    case Some(entries) => entries
    case None => []
  }

  /** A name in the list, or, where the list holds no DNS or IP entry at all, the common name. */
  ghost predicate Verified(c: Certificate, h: Host) {
    SanMatches(Entries(c), h) || (!AnyKnown(Entries(c)) && CnMatches(c.subject, h))
  }

  /** The same for the errors. */
  ghost predicate Refused(c: Certificate, h: Host) {
    SanFails(Entries(c), h) || (!AnyKnown(Entries(c)) && CnMalformed(c.subject))
  }

  method CheckName(c: Certificate, h: Host) returns (rv: int, matched: bool)
    ensures rv == 0 || rv == -1
    ensures matched <==> Verified(c, h)
    ensures rv == -1 <==> Refused(c, h)
  {
    var altExists: bool;
    ScanIsDecided(Entries(c), h);
    rv, matched, altExists := CheckSubjectAltName(c.san, h);
    if rv == -1 {
      return;
    }
    if matched || altExists {
      return 0, matched;
    }
    rv, matched := CheckCommonName(c.subject, h);
  }

  lemma KnownMeaning(san: seq<GeneralName>)
    ensures AnyKnown(san) <==> exists g :: g in san && !g.OtherName?
  {
  }

  /** The check of a host name, entry by entry. */
  lemma HostNameCheck(c: Certificate, h: Host)
    requires h.v4 == None && h.v6 == None
    ensures var san := Entries(c);
      Verified(c, h) <==>
        || (exists i | 0 <= i < |san| :: IsDnsFor(san[i], h.name) && forall j | 0 <= j < i :: !IsBadDns(san[j]))
        || ((forall g :: g in san ==> g.OtherName?)
            && c.subject.CommonName? && c.subject.length == |c.subject.text| && MatchName(c.subject.text, h.name))
    ensures var san := Entries(c);
      Refused(c, h) <==>
        || (exists i | 0 <= i < |san| :: IsBadDns(san[i]) && forall j | 0 <= j < i :: !IsDnsFor(san[j], h.name))
        || ((forall g :: g in san ==> g.OtherName?) && c.subject.CommonName? && c.subject.length != |c.subject.text|)
  {
    KnownMeaning(Entries(c));
    hide MatchName, AnyKnown;
    assert forall g :: Matches(g, h) <==> IsDnsFor(g, h.name);
    assert forall g :: Malformed(g, h) <==> IsBadDns(g);
    hide Matches, Malformed, IsDnsFor, IsBadDns;
  }

  /** An IA5 name without NUL, other than " ", that matches. */
  predicate IsDnsFor(g: GeneralName, name: CString) {
    g.DnsName? && g.ia5 && g.length == |g.text| && g.text != " " && MatchName(g.text, name)
  }

  predicate IsBadDns(g: GeneralName) {
    g.DnsName? && g.ia5 && (g.length != |g.text| || g.text == " ")
  }

  /** The check of an address; the first family that parses is the one that counts. */
  lemma AddressCheck(c: Certificate, h: Host, octets: seq<Byte>)
    requires if h.v4.Some? then octets == h.v4.value else h.v6.Some? && octets == h.v6.value
    ensures var san := Entries(c);
      Verified(c, h) <==>
        || (exists i | 0 <= i < |san| ::
              san[i] == IpName(|octets|, octets) && forall j | 0 <= j < i :: !(san[j].IpName? && san[j].length < 0))
        || ((forall g :: g in san ==> g.OtherName?) && c.subject == CommonName(|h.name|, h.name))
    ensures var san := Entries(c);
      Refused(c, h) <==>
        || (exists i | 0 <= i < |san| :: san[i].IpName? && san[i].length < 0
              && forall j | 0 <= j < i :: san[j] != IpName(|octets|, octets))
        || ((forall g :: g in san ==> g.OtherName?) && c.subject.CommonName? && c.subject.length != |c.subject.text|)
  {
    KnownMeaning(Entries(c));
    hide MatchName, AnyKnown;
    assert forall g :: Matches(g, h) <==> g == IpName(|octets|, octets);
    assert forall g :: Malformed(g, h) <==> g.IpName? && g.length < 0;
    hide Matches, Malformed;
  }

  /** A DNS or IP entry, whatever it says and of whatever type, puts the subject out of play. */
  lemma SubjectIsOnlyAFallback(c: Certificate, subject: Subject, h: Host)
    requires AnyKnown(Entries(c))
    ensures Verified(c, h) <==> Verified(c.(subject := subject), h)
    ensures Refused(c, h) <==> Refused(c.(subject := subject), h)
    ensures Verified(c, h) <==> SanMatches(Entries(c), h)
  {
  }

  lemma AnswerIsDecided(c: Certificate, h: Host)
    ensures !(Verified(c, h) && Refused(c, h))
  {
    ScanIsDecided(Entries(c), h);
  }

  /** An address is never matched by a DNS entry, a wildcard, or with case folded. */
  lemma AddressesMatchExactly(c: Certificate, h: Host)
    requires h.IsAddress() && Verified(c, h)
    ensures
      || IpName(|h.Address()|, h.Address()) in Entries(c)
      || c.subject == CommonName(|h.name|, h.name)
  {
    if SanMatches(Entries(c), h) {
      var i :| 0 <= i < |Entries(c)| && Matches(Entries(c)[i], h);
      assert Entries(c)[i] == IpName(|h.Address()|, h.Address());
    }
  }
}
