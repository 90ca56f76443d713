/** Handing one mail to the outside world: the conversation with one host, the list of hosts to try,
    and the loop over them. */
module Relay {
  import opened Wrappers

  /** What can go wrong: an SMTP reply that refuses, or anything else (network, DNS, settings).
      Wrapping an error in another text keeps its kind. */
  datatype Failure = Reply(temporary: bool) | Trouble

  /** A definitive rejection. */
  predicate IsPermanent(failure: Failure) {
    failure.Reply? && !failure.temporary
  }

  datatype Stage = StartTls | Plain | Hello | Auth | From | To | Data | Write | Close | Quit

  /** What happens at each stage of a conversation with one host. */
  type Peer = Stage -> Option<Failure>

  datatype Route = Direct | Authenticated

  /** The stages a conversation passes through, should all go well. */
  function Script(route: Route, peer: Peer): seq<Stage> {
    Upto(route, peer) + [Quit]
  }

  /** The same, up to the reply that takes over responsibility for the mail. */
  function Upto(route: Route, peer: Peer): seq<Stage> {
    match route
    case Direct => [if peer(StartTls).None? then StartTls else Plain, Hello, From, To, Data, Write, Close]
    case Authenticated => [StartTls, Hello, Auth, From, To, Data, Write, Close]
  }

  function FirstFailure(peer: Peer, stages: seq<Stage>): Option<Failure> {
    if stages == [] then None
    else if peer(stages[0]).Some? then peer(stages[0])
    else FirstFailure(peer, stages[1..])
  }

  /** What a conversation comes to. */
  function Session(route: Route, peer: Peer): Option<Failure> {
    FirstFailure(peer, Script(route, peer))
  }

  /** Encrypted, or plain where that will do: credentials are never sent in the clear. */
  predicate Connected(route: Route, peer: Peer) {
    peer(StartTls).None? || (route.Direct? && peer(Plain).None?)
  }

  /** The host has acknowledged the mail and will deliver it. */
  predicate Took(route: Route, peer: Peer) {
    && Connected(route, peer) && peer(Hello).None?
    && (route.Authenticated? ==> peer(Auth).None?)
    && peer(From).None? && peer(To).None? && peer(Data).None? && peer(Write).None? && peer(Close).None?
  }

  lemma {:induction false} NoFailureIff(peer: Peer, stages: seq<Stage>)
    ensures FirstFailure(peer, stages).None? <==> forall stage :: stage in stages ==> peer(stage).None?
  {
    if stages != [] {
      assert stages == [stages[0]] + stages[1..];
      NoFailureIff(peer, stages[1..]);
    }
  }

  lemma {:induction false} FailureOfTwoParts(peer: Peer, first: seq<Stage>, second: seq<Stage>)
    ensures FirstFailure(peer, first + second)
            == if FirstFailure(peer, first).Some? then FirstFailure(peer, first) else FirstFailure(peer, second)
  {
    if first == [] {
      assert first + second == second;
    } else {
      assert (first + second)[1..] == first[1..] + second;
      FailureOfTwoParts(peer, first[1..], second);
    }
  }

  lemma NoFailureMeansTaken(route: Route, peer: Peer)
    ensures FirstFailure(peer, Upto(route, peer)).None? <==> Took(route, peer)
  {
    NoFailureIff(peer, Upto(route, peer));
    var stages := Upto(route, peer);
    if forall stage :: stage in stages ==> peer(stage).None? {
      assert stages[0] in stages && stages[1] in stages && stages[2] in stages && stages[3] in stages;
      assert stages[4] in stages && stages[5] in stages && stages[6] in stages;
      assert route.Authenticated? ==> stages[7] in stages;
    }
  }

  /** Success means that the host took the mail.  Failure does not mean that it did not: it took the mail
      all the same exactly when only the parting QUIT went wrong. */
  lemma SuccessMeansTaken(route: Route, peer: Peer)
    ensures Session(route, peer).None? <==> Took(route, peer) && peer(Quit).None?
    ensures Took(route, peer) ==> Session(route, peer) == peer(Quit)
  {
    FailureOfTwoParts(peer, Upto(route, peer), [Quit]);
    NoFailureMeansTaken(route, peer);
  }

  lemma {:induction false} FirstFailureIs(peer: Peer, stages: seq<Stage>, k: nat)
    requires k < |stages| && peer(stages[k]).Some?
    requires forall j :: 0 <= j < k ==> peer(stages[j]).None?
    ensures FirstFailure(peer, stages) == peer(stages[k])
  {
    if k > 0 {
      FirstFailureIs(peer, stages[1..], k - 1);
    }
  }

  /** `tryAddr`: encryption when it can be had, otherwise a plain connection. */
  method TryAddr(peer: Peer) returns (result: Option<Failure>)
    ensures result.None? <==>
              && (peer(StartTls).None? || peer(Plain).None?)
              && peer(Hello).None? && peer(From).None? && peer(To).None? && peer(Data).None?
              && peer(Write).None? && peer(Close).None? && peer(Quit).None?
    ensures result.Some? ==> result == if peer(StartTls).Some? && peer(Plain).Some? then peer(Plain)
                                       else if peer(Hello).Some? then peer(Hello)
                                       else if peer(From).Some? then peer(From)
                                       else if peer(To).Some? then peer(To)
                                       else if peer(Data).Some? then peer(Data)
                                       else if peer(Write).Some? then peer(Write)
                                       else if peer(Close).Some? then peer(Close)
                                       else peer(Quit)
    ensures result == Session(Direct, peer)
  {
    ghost var script := Script(Direct, peer);
    var err := peer(StartTls);
    if err.Some? {
      err := peer(Plain);
      if err.Some? { FirstFailureIs(peer, script, 0); return err; }
    }
    err := peer(Hello);
    if err.Some? { FirstFailureIs(peer, script, 1); return err; }
    err := peer(From);
    if err.Some? { FirstFailureIs(peer, script, 2); return err; }
    err := peer(To);
    if err.Some? { FirstFailureIs(peer, script, 3); return err; }
    err := peer(Data);
    if err.Some? { FirstFailureIs(peer, script, 4); return err; }
    err := peer(Write);
    if err.Some? { FirstFailureIs(peer, script, 5); return err; }
    err := peer(Close);
    if err.Some? { FirstFailureIs(peer, script, 6); return err; }
    SuccessMeansTaken(Direct, peer);
    return peer(Quit);
  }

  /** `trySmartHostWithTLS`: no plain fallback, and a login first. */
  method TrySmartHost(peer: Peer) returns (result: Option<Failure>)
    ensures result.None? <==>
              && peer(StartTls).None? && peer(Hello).None? && peer(Auth).None? && peer(From).None?
              && peer(To).None? && peer(Data).None? && peer(Write).None? && peer(Close).None? && peer(Quit).None?
    ensures result.Some? ==> result == if peer(StartTls).Some? then peer(StartTls)
                                       else if peer(Hello).Some? then peer(Hello)
                                       else if peer(Auth).Some? then peer(Auth)
                                       else if peer(From).Some? then peer(From)
                                       else if peer(To).Some? then peer(To)
                                       else if peer(Data).Some? then peer(Data)
                                       else if peer(Write).Some? then peer(Write)
                                       else if peer(Close).Some? then peer(Close)
                                       else peer(Quit)
    ensures result == Session(Authenticated, peer)
  {
    ghost var script := Script(Authenticated, peer);
    var err := peer(StartTls);
    if err.Some? { FirstFailureIs(peer, script, 0); return err; }
    err := peer(Hello);
    if err.Some? { FirstFailureIs(peer, script, 1); return err; }
    err := peer(Auth);
    if err.Some? { FirstFailureIs(peer, script, 2); return err; }
    err := peer(From);
    if err.Some? { FirstFailureIs(peer, script, 3); return err; }
    err := peer(To);
    if err.Some? { FirstFailureIs(peer, script, 4); return err; }
    err := peer(Data);
    if err.Some? { FirstFailureIs(peer, script, 5); return err; }
    err := peer(Write);
    if err.Some? { FirstFailureIs(peer, script, 6); return err; }
    err := peer(Close);
    if err.Some? { FirstFailureIs(peer, script, 7); return err; }
    SuccessMeansTaken(Authenticated, peer);
    return peer(Quit);
  }

  // ---------- which hosts ----------

  datatype Lookup = Unanswered | Records(names: seq<string>)

  predicate HasMx(lookup: Lookup) {
    lookup.Records? && lookup.names != []
  }

  function TrimDot(name: string): string {
    if name != "" && name[|name| - 1] == '.' then name[..|name| - 1] else name
  }

  /** The hosts a domain's mail may go to, in order of preference. */
  function Exchangers(domain: string, lookup: Lookup): seq<string> {
    if HasMx(lookup) then seq(|lookup.names|, i requires 0 <= i < |lookup.names| => TrimDot(lookup.names[i]))
    else [domain]
  }

  predicate EndsInDot(name: string) {
    name != "" && name[|name| - 1] == '.'
  }

  /** `mxHosts`: never an empty list.  `resolves` tells whether the domain has an address of its own. */
  method MxHosts(domain: string, lookup: Lookup, resolves: bool) returns (result: Option<seq<string>>)
    ensures result.Some? <==> (lookup.Records? && lookup.names != []) || resolves
    ensures result.Some? ==> result.value != []
    ensures lookup.Records? && lookup.names != [] ==>
              |result.value| == |lookup.names|
              && forall i :: 0 <= i < |lookup.names| ==>
                   lookup.names[i] == if EndsInDot(lookup.names[i]) then result.value[i] + "." else result.value[i]
    ensures !(lookup.Records? && lookup.names != []) && resolves ==> result.value == [domain]
    ensures result.Some? ==> result.value == Exchangers(domain, lookup)
  {
    if lookup.Records? && |lookup.names| > 0 {
      var hosts := new string[|lookup.names|](_ => "");
      for i := 0 to |lookup.names|
        invariant forall j :: 0 <= j < i ==> hosts[j] == TrimDot(lookup.names[j])
      {
        hosts[i] := TrimDot(lookup.names[i]);
      }
      assert hosts[..] == Exchangers(domain, lookup);
      return Some(hosts[..]);
    }
    if resolves {
      return Some([domain]);
    }
    return None;
  }

  // ---------- the loop ----------

  /** An answer after which no other host is asked. */
  predicate Decisive(result: Option<Failure>) {
    result.None? || IsPermanent(result.value)
  }

  function Answer(peers: string -> Peer, host: string): Option<Failure> {
    Session(Direct, peers(host))
  }

  /** `tried` is what becomes of asking `hosts` in turn, and `result` the answer that counts. */
  predicate InTurn(hosts: seq<string>, peers: string -> Peer, tried: seq<string>, result: Option<Failure>) {
    && tried <= hosts
    && (hosts == [] ==> result.None?)
    && (hosts != [] ==> tried != [] && result == Answer(peers, tried[|tried| - 1]))
    && (forall i :: 0 <= i < |tried| - 1 ==> !Decisive(Answer(peers, tried[i])))
    && (tried == hosts || Decisive(result))
  }

  /** The hosts asked, as far as the first decisive answer. */
  function Asked(hosts: seq<string>, peers: string -> Peer): seq<string> {
    if hosts == [] then []
    else if Decisive(Answer(peers, hosts[0])) then [hosts[0]]
    else [hosts[0]] + Asked(hosts[1..], peers)
  }

  /** The loop of `deliver` over the hosts. */
  method TryInTurn(hosts: seq<string>, peers: string -> Peer) returns (result: Option<Failure>, tried: seq<string>)
    ensures tried == Asked(hosts, peers)
    ensures if tried == [] then result.None? else result == Answer(peers, tried[|tried| - 1])
  {
    result, tried := None, [];
    ghost var all := Asked(hosts, peers);
    for i := 0 to |hosts|
      invariant all == tried + Asked(hosts[i..], peers)
      invariant if tried == [] then result.None? else result == Answer(peers, tried[|tried| - 1])
    {
      AskedStep(tried, hosts[i..], peers);
      assert hosts[i..][1..] == hosts[i + 1..];
      result := TryAddr(peers(hosts[i]));
      tried := tried + [hosts[i]];
      if result.None? { return; }
      if IsPermanent(result.value) { return; }
    }
  }

  lemma AskedStep(tried: seq<string>, hosts: seq<string>, peers: string -> Peer)
    requires hosts != []
    ensures tried + Asked(hosts, peers)
         == if Decisive(Answer(peers, hosts[0])) then tried + [hosts[0]]
            else (tried + [hosts[0]]) + Asked(hosts[1..], peers)
  {
    assert tried + ([hosts[0]] + Asked(hosts[1..], peers)) == (tried + [hosts[0]]) + Asked(hosts[1..], peers);
  }

  /** The list of hosts decides which are tried and what is answered. */
  lemma InTurnIsUnique(hosts: seq<string>, peers: string -> Peer,
                       tried: seq<string>, result: Option<Failure>, tried': seq<string>, result': Option<Failure>)
    requires InTurn(hosts, peers, tried, result) && InTurn(hosts, peers, tried', result')
    ensures tried == tried' && result == result'
  {
    assert |tried| == |tried'|;
    assert forall i :: 0 <= i < |tried| ==> tried[i] == hosts[i] && tried'[i] == hosts[i];
  }

  predicate FirstDecisive(hosts: seq<string>, peers: string -> Peer, i: nat) {
    i < |hosts| && Decisive(Answer(peers, hosts[i])) && forall j :: 0 <= j < i ==> !Decisive(Answer(peers, hosts[j]))
  }

  /** Relayed exactly when the first host to give a decisive answer accepts; a permanent failure exactly
      when that host rejects; otherwise, that is when no host is decisive, the mail will be retried. */
  lemma AnswerOfFirstDecisive(hosts: seq<string>, peers: string -> Peer,
                              tried: seq<string>, result: Option<Failure>, i: nat)
    requires InTurn(hosts, peers, tried, result) && FirstDecisive(hosts, peers, i)
    ensures |tried| == i + 1 && result == Answer(peers, hosts[i])
  {
    assert forall j :: 0 <= j < |tried| ==> tried[j] == hosts[j];
  }

  lemma RetriedIffNoneDecisive(hosts: seq<string>, peers: string -> Peer,
                               tried: seq<string>, result: Option<Failure>)
    requires hosts != [] && InTurn(hosts, peers, tried, result)
    ensures !Decisive(result) <==> forall i :: 0 <= i < |hosts| ==> !Decisive(Answer(peers, hosts[i]))
  {
    if !Decisive(result) {
      forall i | 0 <= i < |hosts| ensures !Decisive(Answer(peers, hosts[i])) {
        assert tried[i] == hosts[i];
      }
    } else {
      assert Decisive(Answer(peers, hosts[|tried| - 1]));
    }
  }

  /** Two hosts take the same mail only when the first of them broke off at QUIT in a way that is
      retried: a mail is handed over twice in no other way. */
  lemma TakenTwiceOnlyAfterFailedQuit(hosts: seq<string>, peers: string -> Peer,
                                      tried: seq<string>, result: Option<Failure>, i: nat, j: nat)
    requires InTurn(hosts, peers, tried, result) && i < j < |tried|
    requires Took(Direct, peers(tried[i])) && Took(Direct, peers(tried[j]))
    ensures peers(tried[i])(Quit).Some? && !IsPermanent(peers(tried[i])(Quit).value)
  {
    SuccessMeansTaken(Direct, peers(tried[i]));
    assert !Decisive(Answer(peers, tried[i]));
  }

  lemma InTurnAfterFirst(hosts: seq<string>, peers: string -> Peer, rest: seq<string>, result: Option<Failure>)
    requires |hosts| > 1 && !Decisive(Answer(peers, hosts[0])) && InTurn(hosts[1..], peers, rest, result)
    ensures InTurn(hosts, peers, [hosts[0]] + rest, result)
  {
    var tried := [hosts[0]] + rest;
    assert hosts == [hosts[0]] + hosts[1..];
    assert rest[|rest| - 1] == tried[|tried| - 1];
    forall i | 0 <= i < |tried| - 1 ensures !Decisive(Answer(peers, tried[i])) {
      if i > 0 { assert tried[i] == rest[i - 1]; }
    }
  }

  lemma {:induction false} AskedInTurn(hosts: seq<string>, peers: string -> Peer)
    requires hosts != []
    ensures Asked(hosts, peers) != []
    ensures InTurn(hosts, peers, Asked(hosts, peers), Answer(peers, Asked(hosts, peers)[|Asked(hosts, peers)| - 1]))
  {
    if Decisive(Answer(peers, hosts[0])) {
      assert Asked(hosts, peers) == [hosts[0]];
    } else if |hosts| == 1 {
      assert hosts[1..] == [] && Asked(hosts, peers) == [hosts[0]] == hosts;
    } else {
      var rest := Asked(hosts[1..], peers);
      AskedInTurn(hosts[1..], peers);
      InTurnAfterFirst(hosts, peers, rest, Answer(peers, rest[|rest| - 1]));
      assert Asked(hosts, peers) == [hosts[0]] + rest;
    }
  }

  /** How many of the hosts took the mail, and how many of those broke off at QUIT. */
  function TakersOf(route: Route, hosts: seq<string>, peers: string -> Peer): nat {
    if hosts == [] then 0
    else (if Took(route, peers(hosts[0])) then 1 else 0) + TakersOf(route, hosts[1..], peers)
  }

  function QuitFailuresOf(route: Route, hosts: seq<string>, peers: string -> Peer): nat {
    if hosts == [] then 0
    else (if Took(route, peers(hosts[0])) && peers(hosts[0])(Quit).Some? then 1 else 0)
         + QuitFailuresOf(route, hosts[1..], peers)
  }

  /** When all but the last of the hosts failed, every taker but a last one that succeeds broke off at
      QUIT. */
  lemma {:induction false} TakersBalance(route: Route, hosts: seq<string>, peers: string -> Peer)
    requires forall i :: 0 <= i < |hosts| - 1 ==> Session(route, peers(hosts[i])).Some?
    ensures TakersOf(route, hosts, peers) == QuitFailuresOf(route, hosts, peers)
              + if hosts != [] && Session(route, peers(hosts[|hosts| - 1])).None? then 1 else 0
  {
    if hosts != [] {
      SuccessMeansTaken(route, peers(hosts[0]));
      assert forall i :: 0 <= i < |hosts| - 1 ==> hosts[1..][i] == hosts[i + 1];
      TakersBalance(route, hosts[1..], peers);
    }
  }

  /** What the settings say about a smart host. */
  datatype SmartHost = Unset | Unreadable | Disabled | Enabled(host: string)

  /** The world one delivery meets.  `domain` is what follows the `@` of the recipient, if anything does. */
  datatype Network = Network(smart: SmartHost, domain: Option<string>, lookup: Lookup, resolves: bool,
                             peers: string -> Peer)
  {
    function Route(): Route {
      if smart.Enabled? then Authenticated else Direct
    }

    /** The hosts the mail is offered to. */
    function Tried(): seq<string> {
      if smart.Enabled? then [smart.host]
      else if smart.Unreadable? || domain.None? || !(HasMx(lookup) || resolves) then []
      else Asked(Exchangers(domain.value, lookup), peers)
    }

    function Takers(): nat {
      TakersOf(Route(), Tried(), peers)
    }

    function QuitFailures(): nat {
      QuitFailuresOf(Route(), Tried(), peers)
    }

    /** The word of the last of them; without any, a failure that is retried. */
    function Outcome(): Option<Failure> {
      var tried := Tried();
      if tried == [] then Some(Trouble) else Session(Route(), peers(tried[|tried| - 1]))
    }
  }

  /** Relayed means that the last host asked took the mail; given up on without further tries, that it
      answered with a definitive rejection. */
  lemma OutcomeIsAHostsWord(net: Network)
    ensures net.Outcome().None? ==>
              net.Tried() != [] && Took(net.Route(), net.peers(net.Tried()[|net.Tried()| - 1]))
    ensures net.Outcome().Some? && IsPermanent(net.Outcome().value) ==> net.Tried() != []
    ensures net.Tried() != [] ==> net.Outcome() == Session(net.Route(), net.peers(net.Tried()[|net.Tried()| - 1]))
  {
    if net.Tried() != [] {
      SuccessMeansTaken(net.Route(), net.peers(net.Tried()[|net.Tried()| - 1]));
    }
  }

  /** The smart host and the recipient's own hosts are never mixed; without the one, the others are asked
      in order of preference up to the first decisive answer. */
  lemma OffersInTurn(net: Network)
    ensures net.smart.Enabled? ==>
              && net.Tried() == [net.smart.host]
              && net.Outcome() == Session(Authenticated, net.peers(net.smart.host))
    ensures net.Tried() != [] <==>
              || net.smart.Enabled?
              || (!net.smart.Unreadable? && net.domain.Some?
                  && ((net.lookup.Records? && net.lookup.names != []) || net.resolves))
    ensures net.Tried() == [] ==> net.Outcome() == Some(Trouble)
    ensures !net.smart.Enabled? && net.Tried() != [] ==>
              net.domain.Some?
              && InTurn(Exchangers(net.domain.value, net.lookup), net.peers, net.Tried(), net.Outcome())
  {
    if !net.smart.Enabled? && !net.smart.Unreadable? && net.domain.Some? && (HasMx(net.lookup) || net.resolves) {
      AskedInTurn(Exchangers(net.domain.value, net.lookup), net.peers);
    }
  }

  /** In one delivery the hosts that take the mail are those that break off at QUIT, and one more exactly
      when the delivery succeeds. */
  lemma TakersAndQuits(net: Network)
    ensures net.Takers() == net.QuitFailures() + if net.Outcome().None? then 1 else 0
  {
    OffersInTurn(net);
    var tried := net.Tried();
    if !net.smart.Enabled? && tried != [] {
      forall i | 0 <= i < |tried| - 1 ensures Session(net.Route(), net.peers(tried[i])).Some? {
        assert !Decisive(Answer(net.peers, tried[i]));
      }
    }
    TakersBalance(net.Route(), tried, net.peers);
  }

  /** `deliver`. */
  method Deliver(net: Network) returns (result: Option<Failure>, tried: seq<string>)
    ensures result == net.Outcome() && tried == net.Tried()
  {
    if !net.smart.Unset? {
      if net.smart.Unreadable? {
        return Some(Trouble), [];
      }
      if net.smart.Enabled? {
        result := TrySmartHost(net.peers(net.smart.host));
        return result, [net.smart.host];
      }
    }
    if net.domain.None? {
      return Some(Trouble), [];
    }
    var hosts := MxHosts(net.domain.value, net.lookup, net.resolves);
    if hosts.None? {
      return Some(Trouble), [];
    }
    result, tried := TryInTurn(hosts.value, net.peers);
  }
}
