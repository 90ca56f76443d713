/** DMARC: discovering the policy record that applies to a sender's domain, identifier alignment, and
    the decision to quarantine.

    DNS and the public-suffix list are arbitrary functions.  All that is assumed of the latter is that
    the organizational domain it names is reached from its argument by dropping leading labels.  Case
    folding is ASCII. */
module Dmarc {
  import opened Wrappers

  type Domain = string

  datatype Policy = NoAction | Quarantine | Reject

  datatype Mode = Relaxed | Strict

  datatype Record = Record(policy: Policy, subdomainPolicy: Option<Policy>, spfMode: Mode, dkimMode: Mode)

  /** What one DNS lookup of a DMARC record gives. */
  datatype Answer = Found(record: Record) | NoPolicy | TempError | PermError

  type Dns = Domain -> Answer
  type SuffixList = Domain -> Option<Domain>

  /** The outcome of discovery; `at` is the name whose answer decided it. */
  datatype Discovery =
    | Applies(at: Domain, record: Record, policy: Policy)
    | Failed(at: Domain, temporary: bool)
    | NoRecord

  function LowerChar(c: char): char {
    if 'A' <= c <= 'Z' then 'a' + (c - 'A') else c
  }

  function Lower(s: string): string {
    seq(|s|, i requires 0 <= i < |s| => LowerChar(s[i]))
  }

  /** Capitals become the small letters 32 places on, and everything else stays. */
  lemma LowerFolds(s: string)
    ensures |Lower(s)| == |s| && Lower(Lower(s)) == Lower(s)
    ensures forall i :: 0 <= i < |s| ==>
              Lower(s)[i] as int == s[i] as int + if 65 <= s[i] as int <= 90 then 32 else 0
  {
    assert forall i :: 0 <= i < |s| ==> LowerChar(LowerChar(s[i])) == LowerChar(s[i]);
  }

  /** `strings.Cut(domain, ".")`: what follows the first dot. */
  function Cut(domain: Domain): (rest: Option<Domain>)
    ensures rest.Some? ==> |rest.value| < |domain|
  {
    if domain == "" then None
    else if domain[0] == '.' then Some(domain[1..])
    else Cut(domain[1..])
  }

  /** `s` is reached from `d` by dropping leading labels. */
  predicate LabelSuffix(s: Domain, d: Domain)
    decreases |d|
  {
    s == d || (Cut(d).Some? && LabelSuffix(s, Cut(d).value))
  }

  /** In terms of text: `s` is `d`, or `d` ends in a dot followed by `s`. */
  predicate EndsAtLabel(s: Domain, d: Domain) {
    s == d || (|s| < |d| && d[|d| - |s| - 1] == '.' && d[|d| - |s|..] == s)
  }

  lemma {:induction false} CutIsFirstDot(d: Domain)
    ensures Cut(d).None? <==> forall i :: 0 <= i < |d| ==> d[i] != '.'
    ensures Cut(d).Some? ==> var n := |d| - |Cut(d).value| - 1;
              0 <= n && d[n] == '.' && d[n + 1..] == Cut(d).value && forall i :: 0 <= i < n ==> d[i] != '.'
  {
    if d != "" && d[0] != '.' {
      CutIsFirstDot(d[1..]);
      assert forall i :: 1 <= i < |d| ==> d[i] == d[1..][i - 1];
    }
  }

  /** `d` starts with a label of `n` characters and its dot; `rest` is what follows. */
  lemma EndsInRest(s: Domain, d: Domain, n: nat, rest: Domain)
    requires n < |d| && d[n] == '.' && rest == d[n + 1..] && forall i :: 0 <= i < n ==> d[i] != '.'
    ensures EndsAtLabel(s, d) <==> s == d || EndsAtLabel(s, rest)
  {
    if |s| < |rest| {
      assert rest[|rest| - |s| - 1] == d[|d| - |s| - 1];
      assert rest[|rest| - |s|..] == d[|d| - |s|..];
    } else if |s| == |rest| {
      assert d[|d| - |s|..] == rest;
    }
  }

  /** Dropping labels one by one reaches exactly the suffixes that start at a label. */
  lemma {:induction false} LabelSuffixIsTextual(s: Domain, d: Domain)
    ensures LabelSuffix(s, d) <==> EndsAtLabel(s, d)
    decreases |d|
  {
    CutIsFirstDot(d);
    if Cut(d).Some? {
      var rest := Cut(d).value;
      EndsInRest(s, d, |d| - |rest| - 1, rest);
      LabelSuffixIsTextual(s, rest);
    }
  }

  // ---------- discovery ----------

  /** The policy in force: the subdomain policy when the record was found above the sender's domain and
      has one. */
  function Effective(r: Record, at: Domain, from: Domain): Policy {
    if at != from && r.subdomainPolicy.Some? then r.subdomainPolicy.value else r.policy
  }

  function Verdict(dns: Dns, at: Domain, from: Domain): Discovery {
    match dns(at)
    case Found(r) => Applies(at, r, Effective(r, at, from))
    case NoPolicy => NoRecord
    case TempError => Failed(at, true)
    case PermError => Failed(at, false)
  }

  /** The names that discovery may ask about: the domain, then one label less at a time, down to and
      including `org`. */
  function Chain(domain: Domain, org: Domain): (names: seq<Domain>)
    ensures names != [] && names[0] == domain
    decreases |domain|
  {
    if domain == org || Cut(domain).None? then [domain] else [domain] + Chain(Cut(domain).value, org)
  }

  /** The first name of a list that answers with anything but "no policy". */
  function Nearest(dns: Dns, names: seq<Domain>, from: Domain): Discovery {
    if names == [] then NoRecord
    else if dns(names[0]) != NoPolicy then Verdict(dns, names[0], from)
    else Nearest(dns, names[1..], from)
  }

  function OrgOf(psl: SuffixList, from: Domain): Domain {
    if psl(from).Some? then psl(from).value else from
  }

  /** `lookupDMARCRecord`, as a search of the chain. */
  function Discover(psl: SuffixList, dns: Dns, fromDomain: Domain): Discovery {
    var from := Lower(fromDomain);
    Nearest(dns, Chain(from, OrgOf(psl, from)), from)
  }

  /** The loop that walks up the labels. */
  method LookupDmarcRecord(psl: SuffixList, dns: Dns, fromDomain: Domain) returns (d: Discovery)
    ensures d == Discover(psl, dns, fromDomain)
  {
    var from := Lower(fromDomain);
    var org := OrgOf(psl, from);
    var domain := from;
    while true
      invariant Nearest(dns, Chain(domain, org), from) == Nearest(dns, Chain(from, org), from)
      decreases |domain|
    {
      var answer := dns(domain);
      if answer.Found? {
        var policy := answer.record.policy;
        if domain != from && answer.record.subdomainPolicy.Some? {
          policy := answer.record.subdomainPolicy.value;
        }
        return Applies(domain, answer.record, policy);
      }
      if !answer.NoPolicy? {
        return Failed(domain, answer.TempError?);
      }
      if domain == org {
        assert Chain(domain, org)[1..] == [];
        return NoRecord;
      }
      var rest := Cut(domain);
      if rest.None? {
        assert Chain(domain, org)[1..] == [];
        return NoRecord;
      }
      assert Chain(domain, org)[1..] == Chain(rest.value, org);
      domain := rest.value;
    }
  }

  /** Discovery never asks above the organizational domain, nor about anything that is not the sender's
      domain or a parent of it, and the organizational domain is the last it may ask. */
  lemma {:induction false} ChainStaysBelowOrg(domain: Domain, org: Domain)
    requires LabelSuffix(org, domain)
    ensures var names := Chain(domain, org);
            && names[|names| - 1] == org
            && (forall i :: 0 <= i < |names| ==> LabelSuffix(org, names[i]) && LabelSuffix(names[i], domain))
            && (forall i :: 0 <= i < |names| - 1 ==> |names[i + 1]| < |names[i]|)
    decreases |domain|
  {
    if domain != org {
      var rest := Cut(domain).value;
      ChainStaysBelowOrg(rest, org);
      assert forall i :: 1 <= i < |Chain(domain, org)| ==> Chain(domain, org)[i] == Chain(rest, org)[i - 1];
    }
  }

  /** No label in between is skipped: the chain is made of exactly the names from the domain up to the
      organizational one. */
  lemma {:induction false} ChainIsWholeLine(domain: Domain, org: Domain, name: Domain)
    requires LabelSuffix(org, domain)
    ensures name in Chain(domain, org) <==> LabelSuffix(org, name) && LabelSuffix(name, domain)
    decreases |domain|
  {
    ChainStaysBelowOrg(domain, org);
    if domain == org {
      if LabelSuffix(org, name) && LabelSuffix(name, domain) {
        SuffixNotLonger(org, name);
        SuffixNotLonger(name, domain);
        SameLengthSuffix(name, domain);
      }
    } else {
      var rest := Cut(domain).value;
      ChainIsWholeLine(rest, org, name);
      assert Chain(domain, org) == [domain] + Chain(rest, org);
    }
  }

  lemma {:induction false} SuffixNotLonger(s: Domain, d: Domain)
    requires LabelSuffix(s, d)
    ensures |s| <= |d|
    decreases |d|
  {
    if s != d { SuffixNotLonger(s, Cut(d).value); }
  }

  lemma SameLengthSuffix(s: Domain, d: Domain)
    requires LabelSuffix(s, d) && |s| == |d|
    ensures s == d
  {
    if s != d { SuffixNotLonger(s, Cut(d).value); }
  }

  /** The record used is the nearest: every name before it in the chain answered "no policy". */
  lemma {:induction false} NearestIsFirst(dns: Dns, names: seq<Domain>, from: Domain)
    ensures Nearest(dns, names, from).NoRecord? <==> forall i :: 0 <= i < |names| ==> dns(names[i]) == NoPolicy
    ensures !Nearest(dns, names, from).NoRecord? ==>
              exists k :: 0 <= k < |names| && dns(names[k]) != NoPolicy
                && Nearest(dns, names, from) == Verdict(dns, names[k], from)
                && forall i :: 0 <= i < k ==> dns(names[i]) == NoPolicy
  {
    if names != [] && dns(names[0]) == NoPolicy {
      NearestIsFirst(dns, names[1..], from);
      assert forall i :: 1 <= i < |names| ==> names[i] == names[1..][i - 1];
      if !Nearest(dns, names, from).NoRecord? {
        var k :| 0 <= k < |names[1..]| && dns(names[1..][k]) != NoPolicy
          && Nearest(dns, names[1..], from) == Verdict(dns, names[1..][k], from)
          && forall i :: 0 <= i < k ==> dns(names[1..][i]) == NoPolicy;
        assert dns(names[k + 1]) != NoPolicy;
        assert forall i :: 0 <= i < k + 1 ==> dns(names[i]) == NoPolicy;
      }
    }
  }

  /** The `k`-th of these names is the first to answer with anything but "no policy". */
  ghost predicate Answers(dns: Dns, names: seq<Domain>, k: nat) {
    k < |names| && dns(names[k]) != NoPolicy && forall i :: 0 <= i < k ==> dns(names[i]) == NoPolicy
  }

  /** The policy that counts when the `k`-th name of the chain publishes `r`: the domain's own `p`, or from
      above `sp` where there is one and `p` where there is none. */
  predicate InForce(r: Record, k: nat, policy: Policy) {
    && (k == 0 ==> policy == r.policy)
    && (k > 0 && r.subdomainPolicy.Some? ==> policy == r.subdomainPolicy.value)
    && (k > 0 && r.subdomainPolicy.None? ==> policy == r.policy)
  }

  lemma {:induction false} AnswerDecides(dns: Dns, names: seq<Domain>, from: Domain, k: nat)
    requires Answers(dns, names, k)
    ensures Nearest(dns, names, from) == Verdict(dns, names[k], from)
  {
    if k > 0 {
      assert names[1..][k - 1] == names[k];
      assert Answers(dns, names[1..], k - 1) by {
        assert forall i :: 0 <= i < k - 1 ==> names[1..][i] == names[i + 1];
      }
      AnswerDecides(dns, names[1..], from, k - 1);
    }
  }

  lemma {:induction false} ChainShortens(domain: Domain, org: Domain, k: nat)
    requires k < |Chain(domain, org)|
    ensures if k == 0 then Chain(domain, org)[k] == domain else |Chain(domain, org)[k]| < |domain|
    decreases |domain|
  {
    if k > 0 {
      ChainShortens(Cut(domain).value, org, k - 1);
    }
  }

  /** What comes of discovery when the name `at`, the `k`-th of the chain, answers first. */
  predicate Follows(d: Discovery, answer: Answer, at: Domain, k: nat) {
    match answer
    case Found(r) => d.Applies? && d.at == at && d.record == r && InForce(r, k, d.policy)
    case NoPolicy => false
    case TempError => d == Failed(at, true)
    case PermError => d == Failed(at, false)
  }

  lemma AnswerFollows(dns: Dns, from: Domain, org: Domain, k: nat)
    requires Answers(dns, Chain(from, org), k)
    ensures Follows(Nearest(dns, Chain(from, org), from), dns(Chain(from, org)[k]), Chain(from, org)[k], k)
  {
    AnswerDecides(dns, Chain(from, org), from, k);
    ChainShortens(from, org, k);
  }

  /** Discovery, answer by answer: nothing when every name of the chain is silent; otherwise what the first
      name that is not silent says, and for a record the policy in force. */
  lemma DiscoveryDecides(psl: SuffixList, dns: Dns, fromDomain: Domain)
    ensures var from, d := Lower(fromDomain), Discover(psl, dns, fromDomain);
            var names := Chain(from, if psl(from).Some? then psl(from).value else from);
            && ((forall i :: 0 <= i < |names| ==> dns(names[i]) == NoPolicy) ==> d.NoRecord?)
            && forall k: nat :: Answers(dns, names, k) ==> Follows(d, dns(names[k]), names[k], k)
  {
    var from, d := Lower(fromDomain), Discover(psl, dns, fromDomain);
    var org := if psl(from).Some? then psl(from).value else from;
    var names := Chain(from, org);
    assert d == Nearest(dns, names, from);
    NearestIsFirst(dns, names, from);
    forall k: nat | Answers(dns, names, k) ensures Follows(d, dns(names[k]), names[k], k) {
      AnswerFollows(dns, from, org, k);
    }
  }

  /** Where the public-suffix list names no organization, the sender's domain alone is asked. */
  lemma WithoutOrgOneIsAsked(psl: SuffixList, dns: Dns, fromDomain: Domain)
    requires psl(Lower(fromDomain)).None?
    ensures var from := Lower(fromDomain);
            Discover(psl, dns, fromDomain) == match dns(from)
                                              case Found(r) => Applies(from, r, r.policy)
                                              case NoPolicy => NoRecord
                                              case TempError => Failed(from, true)
                                              case PermError => Failed(from, false)
  {
    var from := Lower(fromDomain);
    assert Chain(from, from) == [from];
    DiscoveryDecides(psl, dns, fromDomain);
    if dns(from) != NoPolicy { assert Answers(dns, [from], 0); }
  }

  lemma {:induction false} AsksOnlyTheChain(dns: Dns, dns': Dns, names: seq<Domain>, from: Domain)
    requires forall i :: 0 <= i < |names| ==> dns(names[i]) == dns'(names[i])
    ensures Nearest(dns, names, from) == Nearest(dns', names, from)
  {
    if names != [] {
      assert forall i :: 0 <= i < |names| - 1 ==> names[1..][i] == names[i + 1];
      AsksOnlyTheChain(dns, dns', names[1..], from);
    }
  }

  /** What names outside the sender's own organization publish, or names above it, cannot matter. */
  lemma OutsideCannotMatter(psl: SuffixList, dns: Dns, dns': Dns, fromDomain: Domain)
    requires LabelSuffix(OrgOf(psl, Lower(fromDomain)), Lower(fromDomain))
    requires forall d :: LabelSuffix(OrgOf(psl, Lower(fromDomain)), d) && LabelSuffix(d, Lower(fromDomain)) ==>
               dns(d) == dns'(d)
    ensures Discover(psl, dns, fromDomain) == Discover(psl, dns', fromDomain)
  {
    var from := Lower(fromDomain);
    ChainStaysBelowOrg(from, OrgOf(psl, from));
    AsksOnlyTheChain(dns, dns', Chain(from, OrgOf(psl, from)), from);
  }

  /** The two lookups of section 6.6.3 of RFC 7489: the sender's domain, then the organizational one. */
  function TwoStep(dns: Dns, from: Domain, org: Domain): Discovery {
    if dns(from) != NoPolicy || from == org then Verdict(dns, from, from) else Verdict(dns, org, from)
  }

  ghost predicate SilentBetween(dns: Dns, names: seq<Domain>) {
    forall i :: 0 < i < |names| - 1 ==> dns(names[i]) == NoPolicy
  }

  /** The chain ends with the organizational domain and meets it nowhere else. */
  lemma {:induction false} OrgOnlyLast(domain: Domain, org: Domain, k: nat)
    requires LabelSuffix(org, domain) && k < |Chain(domain, org)|
    ensures Chain(domain, org)[k] == org <==> k == |Chain(domain, org)| - 1
    decreases |domain|
  {
    if domain != org {
      var rest := Cut(domain).value;
      if k > 0 {
        OrgOnlyLast(rest, org, k - 1);
      }
    }
  }

  lemma SilenceMakesTwoStep(dns: Dns, from: Domain, org: Domain)
    requires LabelSuffix(org, from) && dns(from) == NoPolicy && SilentBetween(dns, Chain(from, org))
    ensures Nearest(dns, Chain(from, org), from) == TwoStep(dns, from, org)
  {
    var names := Chain(from, org);
    var last := |names| - 1;
    OrgOnlyLast(from, org, 0);
    OrgOnlyLast(from, org, last);
    NearestIsFirst(dns, names, from);
    assert forall i :: 0 <= i < last ==> dns(names[i]) == NoPolicy;
    if !Nearest(dns, names, from).NoRecord? {
      var k :| 0 <= k < |names| && dns(names[k]) != NoPolicy && Nearest(dns, names, from) == Verdict(dns, names[k], from);
      assert k == last;
    }
  }

  lemma {:induction false} NearestStopsBy(dns: Dns, names: seq<Domain>, from: Domain, j: nat) returns (k: nat)
    requires j < |names| && dns(names[j]) != NoPolicy
    ensures k <= j && dns(names[k]) != NoPolicy && Nearest(dns, names, from) == Verdict(dns, names[k], from)
  {
    if dns(names[0]) != NoPolicy {
      k := 0;
    } else {
      assert names[1..][j - 1] == names[j];
      k := NearestStopsBy(dns, names[1..], from, j - 1);
      k := k + 1;
    }
  }

  lemma VerdictsDiffer(dns: Dns, a: Domain, b: Domain, from: Domain)
    requires a != b && dns(a) != NoPolicy
    ensures Verdict(dns, a, from) != Verdict(dns, b, from)
  {
  }

  lemma NoiseBreaksTwoStep(dns: Dns, from: Domain, org: Domain, j: nat)
    requires LabelSuffix(org, from) && dns(from) == NoPolicy
    requires 0 < j < |Chain(from, org)| - 1 && dns(Chain(from, org)[j]) != NoPolicy
    ensures Nearest(dns, Chain(from, org), from) != TwoStep(dns, from, org)
  {
    var k := NearestStopsBy(dns, Chain(from, org), from, j);
    OrgOnlyLast(from, org, 0);
    OrgOnlyLast(from, org, k);
    VerdictsDiffer(dns, Chain(from, org)[k], org, from);
  }

  /** The walk is that two-step lookup exactly when the sender's own domain answers, or no name strictly
      between the two publishes a record or fails. */
  lemma WalkIsTwoStepIff(dns: Dns, from: Domain, org: Domain)
    requires LabelSuffix(org, from)
    ensures Nearest(dns, Chain(from, org), from) == TwoStep(dns, from, org)
       <==> (dns(from) != NoPolicy || SilentBetween(dns, Chain(from, org)))
  {
    if dns(from) == NoPolicy {
      if SilentBetween(dns, Chain(from, org)) {
        SilenceMakesTwoStep(dns, from, org);
      } else {
        var j :| 0 < j < |Chain(from, org)| - 1 && dns(Chain(from, org)[j]) != NoPolicy;
        NoiseBreaksTwoStep(dns, from, org, j);
      }
    }
  }

  /** The two differ: a record published between the sender's domain and the organizational one is used by
      the walk and unknown to the two lookups. */
  lemma WalkUsesIntermediateRecord(psl: SuffixList)
    requires psl("a.b.c.d") == Some("c.d")
    ensures var half := Record(Reject, None, Relaxed, Relaxed);
            var top := Record(NoAction, None, Relaxed, Relaxed);
            var dns: Dns := d => if d == "b.c.d" then Found(half) else if d == "c.d" then Found(top) else NoPolicy;
            && Discover(psl, dns, "a.b.c.d") == Applies("b.c.d", half, Reject)
            && TwoStep(dns, "a.b.c.d", OrgOf(psl, "a.b.c.d")) == Applies("c.d", top, NoAction)
  {
    var from: Domain := "a.b.c.d";
    assert Lower(from) == from;
    assert from[1..] == ".b.c.d" && from[1..][1..] == "b.c.d";
    assert Cut(from) == Some("b.c.d");
    assert OrgOf(psl, from) == "c.d";
    var names := Chain(from, "c.d");
    assert names[1..] == Chain("b.c.d", "c.d");
    assert names[0] == from && names[1] == "b.c.d";
    var half := Record(Reject, None, Relaxed, Relaxed);
    var top := Record(NoAction, None, Relaxed, Relaxed);
    var dns: Dns := d => if d == "b.c.d" then Found(half) else if d == "c.d" then Found(top) else NoPolicy;
    assert dns(from) == NoPolicy;
    assert Nearest(dns, names, from) == Nearest(dns, names[1..], from);
    assert Nearest(dns, names[1..], from) == Verdict(dns, "b.c.d", from);
  }

  // ---------- alignment ----------

  predicate SameName(a: Domain, b: Domain) {
    Lower(a) == Lower(b)
  }

  /** `aligned`. */
  predicate Aligned(psl: SuffixList, from: Domain, other: Domain, mode: Mode) {
    if other == "" then false
    else if SameName(from, other) then true
    else if mode == Strict then false
    else
      var fromOrg, otherOrg := psl(Lower(from)), psl(Lower(other));
      fromOrg.Some? && otherOrg.Some? && SameName(fromOrg.value, otherOrg.value)
  }

  /** Alignment is an equivalence on names that are not empty, and strict alignment implies relaxed. */
  lemma AlignedIsEquivalence(psl: SuffixList, a: Domain, b: Domain, c: Domain, mode: Mode)
    requires a != "" && b != "" && c != ""
    ensures Aligned(psl, a, a, mode)
    ensures Aligned(psl, a, b, mode) ==> Aligned(psl, b, a, mode)
    ensures Aligned(psl, a, b, mode) && Aligned(psl, b, c, mode) ==> Aligned(psl, a, c, mode)
    ensures Aligned(psl, a, b, Strict) ==> Aligned(psl, a, b, mode)
  {
  }

  /** The organizational domains of two names are known and the same. */
  predicate SameOrg(psl: SuffixList, a: Domain, b: Domain) {
    psl(Lower(a)).Some? && psl(Lower(b)).Some? && Lower(psl(Lower(a)).value) == Lower(psl(Lower(b)).value)
  }

  /** Strict alignment wants the same name; relaxed alignment is content with the same organization. */
  lemma AlignedIff(psl: SuffixList, from: Domain, other: Domain)
    ensures Aligned(psl, from, other, Strict) <==> other != "" && Lower(from) == Lower(other)
    ensures Aligned(psl, from, other, Relaxed) <==>
              other != "" && (Lower(from) == Lower(other) || SameOrg(psl, from, other))
  {
  }

  // ---------- the decision ----------

  datatype AuthResult = Dkim(pass: bool, domain: Domain) | OtherResult

  datatype Value = ValueNone | ValuePass | ValueFail | ValueTempError | ValuePermError

  predicate DkimAligns(psl: SuffixList, from: Domain, r: AuthResult, mode: Mode) {
    r.Dkim? && r.pass && Aligned(psl, from, r.domain, mode)
  }

  /** Does the mail pass DMARC under `record`? */
  ghost predicate Passes(psl: SuffixList, from: Domain, record: Record, spfPass: bool, spfDomain: Domain,
                         dkim: seq<AuthResult>) {
    || (spfPass && Aligned(psl, from, spfDomain, record.spfMode))
    || exists i :: 0 <= i < |dkim| && DkimAligns(psl, from, dkim[i], record.dkimMode)
  }

  /** Another name of the same organization passes by SPF exactly under relaxed SPF alignment, and by DKIM
      exactly under relaxed DKIM alignment; what did not pass its own check never does. */
  lemma ModesAreApart(psl: SuffixList, from: Domain, other: Domain, record: Record)
    requires other != "" && Lower(from) != Lower(other) && SameOrg(psl, from, other)
    ensures Passes(psl, from, record, true, other, []) <==> record.spfMode == Relaxed
    ensures Passes(psl, from, record, false, other, [Dkim(true, other)]) <==> record.dkimMode == Relaxed
    ensures !Passes(psl, from, record, false, from, [Dkim(false, from), OtherResult])
  {
    AlignedIff(psl, from, other);
    assert DkimAligns(psl, from, [Dkim(true, other)][0], record.dkimMode) <==> record.dkimMode == Relaxed;
  }

  /** The names asked about a sender, in order. */
  function Line(psl: SuffixList, fromDomain: Domain): seq<Domain> {
    Chain(Lower(fromDomain), OrgOf(psl, Lower(fromDomain)))
  }

  /** A record at the `k`-th name of the line asks to act on failures. */
  predicate Acts(r: Record, k: nat) {
    InForce(r, k, Quarantine) || InForce(r, k, Reject)
  }

  lemma FirstAnswer(dns: Dns, names: seq<Domain>) returns (k: nat)
    ensures k == |names| || Answers(dns, names, k)
    ensures k == |names| ==> forall i :: 0 <= i < |names| ==> dns(names[i]) == NoPolicy
  {
    k := 0;
    while k < |names| && dns(names[k]) == NoPolicy
      invariant k <= |names| && forall i :: 0 <= i < k ==> dns(names[i]) == NoPolicy
    {
      k := k + 1;
    }
  }

  /** A record that applies was published by the first name to answer. */
  lemma AppliedIsPublished(psl: SuffixList, dns: Dns, fromDomain: Domain) returns (k: nat)
    requires Discover(psl, dns, fromDomain).Applies?
    ensures var d, names := Discover(psl, dns, fromDomain), Line(psl, fromDomain);
            Answers(dns, names, k) && dns(names[k]) == Found(d.record) && InForce(d.record, k, d.policy)
  {
    DiscoveryDecides(psl, dns, fromDomain);
    k := FirstAnswer(dns, Line(psl, fromDomain));
  }

  /** `checkDMARC`.  Mail is quarantined exactly when a record applies, neither SPF nor any passing DKIM
      signature aligns, and the policy in force asks for quarantine or rejection. */
  method CheckDmarc(psl: SuffixList, dns: Dns, from: Domain, spfPass: bool, spfDomain: Domain,
                    dkim: seq<AuthResult>) returns (result: Option<Value>, quarantine: bool)
    ensures result.None? <==> from == ""
    ensures quarantine <==>
              && from != ""
              && Discover(psl, dns, from).Applies?
              && !Passes(psl, from, Discover(psl, dns, from).record, spfPass, spfDomain, dkim)
              && Discover(psl, dns, from).policy in {Quarantine, Reject}
    ensures quarantine <==>
              && from != ""
              && exists k: nat ::
                   && Answers(dns, Line(psl, from), k)
                   && dns(Line(psl, from)[k]).Found?
                   && !Passes(psl, from, dns(Line(psl, from)[k]).record, spfPass, spfDomain, dkim)
                   && Acts(dns(Line(psl, from)[k]).record, k)
    ensures from != "" ==>
              result == Some(match Discover(psl, dns, from)
                             case NoRecord => ValueNone
                             case Failed(_, temporary) => if temporary then ValueTempError else ValuePermError
                             case Applies(_, record, _) =>
                               if Passes(psl, from, record, spfPass, spfDomain, dkim) then ValuePass else ValueFail)
  {
    if from == "" {
      return None, false;
    }
    var d := LookupDmarcRecord(psl, dns, from);
    DiscoveryDecides(psl, dns, from);
    if d.Applies? {
      ghost var k := AppliedIsPublished(psl, dns, from);
    }
    if d.NoRecord? {
      return Some(ValueNone), false;
    }
    if d.Failed? {
      return Some(if d.temporary then ValueTempError else ValuePermError), false;
    }
    var spfAligned := spfPass && Aligned(psl, from, spfDomain, d.record.spfMode);
    var dkimAligned := false;
    for i := 0 to |dkim|
      invariant !dkimAligned
      invariant forall j :: 0 <= j < i ==> !DkimAligns(psl, from, dkim[j], d.record.dkimMode)
    {
      if !dkim[i].Dkim? || !dkim[i].pass {
        continue;
      }
      if Aligned(psl, from, dkim[i].domain, d.record.dkimMode) {
        assert DkimAligns(psl, from, dkim[i], d.record.dkimMode);
        dkimAligned := true;
        break;
      }
    }
    if spfAligned || dkimAligned {
      return Some(ValuePass), false;
    }
    return Some(ValueFail), d.policy == Quarantine || d.policy == Reject;
  }
}
