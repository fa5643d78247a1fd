/** Which `PodmanArgs` are denied, exactly, with the options written out. */
module Denials {
  import opened Text
  import opened Policy

  // ----- Options -----

  /** The tokens give the option the value `host`: in the next token, option and value in any case, or behind an
      equals sign, the value in any case. */
  ghost predicate GiveHost(tokens: seq<string>, option: string) {
    || (exists i: nat :: i + 1 < |tokens| && Lower(tokens[i]) == option && Lower(tokens[i + 1]) == "host")
    || (exists i: nat, v :: i < |tokens| && tokens[i] == option + "=" + v && Lower(v) == "host")
  }

  /** A token is the option, in any case, alone or with a value behind an equals sign. */
  ghost predicate Contain(tokens: seq<string>, option: string) {
    || (exists i: nat :: i < |tokens| && Lower(tokens[i]) == option)
    || (exists i: nat, v :: i < |tokens| && Lower(tokens[i]) == option + "=" + v)
  }

  /** The options that must not have the value `host`. */
  predicate HostWithheld(option: string, p: QuadletPolicy) {
    || ((option == "--network" || option == "--net") && !p.allowHostNetwork)
    || (option == "--pid" && !p.allowHostPid)
    || (option == "--ipc" && !p.allowHostIpc)
    || (option == "--userns" && !p.allowHostUserns)
  }

  /** The options that must not be there. */
  predicate OptionWithheld(option: string, p: QuadletPolicy) {
    || (option == "--privileged" && !p.allowPrivileged)
    || (option == "--device" && !p.allowDevices)
    || ((option == "--volume" || option == "-v" || option == "--mount") && !p.allowRootMount)
  }

  /** What a policy withholds is asked for. */
  ghost predicate AskForWithheld(tokens: seq<string>, p: QuadletPolicy) {
    || (exists option :: HostWithheld(option, p) && GiveHost(tokens, option))
    || (exists option :: OptionWithheld(option, p) && Contain(tokens, option))
  }

  predicate LowerCase(s: string) {
    forall c <- s :: !('A' <= c <= 'Z')
  }

  lemma LowerKeeps(s: string)
    requires LowerCase(s)
    ensures Lower(s) == s
  {
    forall i | 0 <= i < |s| ensures Lower(s)[i] == s[i] {
      assert s[i] in s;
    }
  }

  lemma SplitAssignment(token: string, option: string)
    ensures StartsWithAssignment(token, option) <==> exists v :: token == option + "=" + v
    ensures StartsWithAssignment(token, option) ==> token == option + "=" + OptionValue(token, option)
  {
    if StartsWithAssignment(token, option) {
      assert token == option + "=" + token[|option| + 1..];
    }
    if v :| token == option + "=" + v {
      assert token[..|option|] == option && token[|option|] == '=';
    }
  }

  lemma AssignedValue(token: string, option: string, v: string)
    requires token == option + "=" + v
    ensures StartsWithAssignment(token, option) && OptionValue(token, option) == v
  {
    assert token[..|option|] == option && token[|option|] == '=' && token[|option| + 1..] == v;
  }

  lemma ValueGiven(token: string, next: string, option: string)
    requires LowerCase(option) && '=' !in option
    ensures TokenHasValue(token, next, option, "host") <==>
      (Lower(token) == option && Lower(next) == "host") || exists v :: token == option + "=" + v && Lower(v) == "host"
  {
    LowerKeeps(option);
    LowerKeeps("host");
    SplitAssignment(token, option);
    if v :| token == option + "=" + v {
      AssignedValue(token, option, v);
      assert Lower(token)[|option|] == '=';
      assert |Lower(v)| == |v|;
    }
  }

  predicate HostAt(tokens: seq<string>, i: nat, option: string) {
    i < |tokens| && TokenHasValue(tokens[i], NextToken(tokens, i), option, "host")
  }

  predicate OptionAt(tokens: seq<string>, i: nat, option: string) {
    i < |tokens| && TokenIsOption(tokens[i], option)
  }

  lemma HostGiven(tokens: seq<string>, option: string)
    requires LowerCase(option) && '=' !in option
    ensures GiveHost(tokens, option) <==>
      exists i: nat :: HostAt(tokens, i, option)
  {
    if i: nat :| i + 1 < |tokens| && Lower(tokens[i]) == option && Lower(tokens[i + 1]) == "host" {
      ValueGiven(tokens[i], NextToken(tokens, i), option);
      assert HostAt(tokens, i, option);
    }
    if i: nat, v :| i < |tokens| && tokens[i] == option + "=" + v && Lower(v) == "host" {
      ValueGiven(tokens[i], NextToken(tokens, i), option);
      assert HostAt(tokens, i, option);
    }
    if i: nat :| HostAt(tokens, i, option) {
      ValueGiven(tokens[i], NextToken(tokens, i), option);
      if Lower(tokens[i]) == option && Lower(NextToken(tokens, i)) == "host" {
        assert i + 1 < |tokens|;
      }
    }
  }

  lemma OptionContained(tokens: seq<string>, option: string)
    ensures Contain(tokens, option) <==> exists i: nat :: OptionAt(tokens, i, option)
  {
    if i: nat, v :| i < |tokens| && Lower(tokens[i]) == option + "=" + v {
      SplitAssignment(Lower(tokens[i]), option);
      assert OptionAt(tokens, i, option);
    }
    if i: nat :| i < |tokens| && Lower(tokens[i]) == option {
      assert OptionAt(tokens, i, option);
    }
    if i: nat :| OptionAt(tokens, i, option) {
      SplitAssignment(Lower(tokens[i]), option);
    }
  }

  lemma HostOptionsAreLower(option: string, p: QuadletPolicy)
    requires HostWithheld(option, p)
    ensures LowerCase(option) && '=' !in option
  {
  }

  lemma HostDenies(tokens: seq<string>, i: nat, option: string, p: QuadletPolicy)
    requires HostAt(tokens, i, option) && HostWithheld(option, p)
    ensures DeniedAt(tokens, i, p)
  {
  }

  lemma OptionDenies(tokens: seq<string>, i: nat, option: string, p: QuadletPolicy)
    requires OptionAt(tokens, i, option) && OptionWithheld(option, p)
    ensures DeniedAt(tokens, i, p)
  {
  }

  /** The option a denied token is about. */
  lemma DeniedOption(tokens: seq<string>, i: nat, p: QuadletPolicy) returns (option: string)
    requires DeniedAt(tokens, i, p)
    ensures (HostWithheld(option, p) && HostAt(tokens, i, option)) || (OptionWithheld(option, p) && OptionAt(tokens, i, option))
  {
    if !p.allowHostNetwork && HostAt(tokens, i, "--network") {
      option := "--network";
    } else if !p.allowHostNetwork && HostAt(tokens, i, "--net") {
      option := "--net";
    } else if !p.allowHostPid && HostAt(tokens, i, "--pid") {
      option := "--pid";
    } else if !p.allowHostIpc && HostAt(tokens, i, "--ipc") {
      option := "--ipc";
    } else if !p.allowHostUserns && HostAt(tokens, i, "--userns") {
      option := "--userns";
    } else {
      option := DeniedPlainOption(tokens, i, p);
    }
  }

  lemma DeniedPlainOption(tokens: seq<string>, i: nat, p: QuadletPolicy) returns (option: string)
    requires DeniedAt(tokens, i, p)
    requires !p.allowHostNetwork ==> !HostAt(tokens, i, "--network") && !HostAt(tokens, i, "--net")
    requires (!p.allowHostPid ==> !HostAt(tokens, i, "--pid")) && (!p.allowHostIpc ==> !HostAt(tokens, i, "--ipc"))
    requires !p.allowHostUserns ==> !HostAt(tokens, i, "--userns")
    ensures OptionWithheld(option, p) && OptionAt(tokens, i, option)
  {
    option := if !p.allowPrivileged && OptionAt(tokens, i, "--privileged") then "--privileged"
              else if !p.allowDevices && OptionAt(tokens, i, "--device") then "--device"
              else if OptionAt(tokens, i, "--volume") then "--volume"
              else if OptionAt(tokens, i, "-v") then "-v"
              else "--mount";
  }

  lemma AskingIsDenied(tokens: seq<string>, p: QuadletPolicy)
    requires AskForWithheld(tokens, p)
    ensures Denied(tokens, p)
  {
    if option :| HostWithheld(option, p) && GiveHost(tokens, option) {
      HostOptionsAreLower(option, p);
      HostGiven(tokens, option);
      var i: nat :| HostAt(tokens, i, option);
      HostDenies(tokens, i, option, p);
    } else {
      var option :| OptionWithheld(option, p) && Contain(tokens, option);
      OptionContained(tokens, option);
      var i: nat :| OptionAt(tokens, i, option);
      OptionDenies(tokens, i, option, p);
    }
  }

  lemma DeniedAsks(tokens: seq<string>, p: QuadletPolicy)
    requires Denied(tokens, p)
    ensures AskForWithheld(tokens, p)
  {
    var i: nat :| DeniedAt(tokens, i, p);
    var option := DeniedOption(tokens, i, p);
    if HostWithheld(option, p) && HostAt(tokens, i, option) {
      HostOptionsAreLower(option, p);
      HostGiven(tokens, option);
    } else {
      OptionContained(tokens, option);
    }
  }

  /** Exactly which token lists are denied. */
  lemma DeniedExactly(tokens: seq<string>, p: QuadletPolicy)
    ensures Denied(tokens, p) <==> AskForWithheld(tokens, p)
  {
    if Denied(tokens, p) {
      DeniedAsks(tokens, p);
    }
    if AskForWithheld(tokens, p) {
      AskingIsDenied(tokens, p);
    }
  }

  // ----- Spellings -----

  /** Option and value in any case, side by side; behind an equals sign the value in any case. */
  lemma CaseOfOptions(p: QuadletPolicy)
    requires !p.allowHostNetwork
    ensures Denied(["--network", "host"], p) && Denied(["--Network", "HOST"], p) && Denied(["--network=Host"], p)
  {
    LowerKeeps("--network");
    LowerKeeps("host");
    assert Lower("--Network") == "--network" && Lower("HOST") == "host" && Lower("Host") == "host";
    var pair, mixed, joined := ["--network", "host"], ["--Network", "HOST"], ["--network=Host"];
    assert Lower(pair[0]) == "--network" && Lower(pair[0 + 1]) == "host";
    assert Lower(mixed[0]) == "--network" && Lower(mixed[0 + 1]) == "host";
    assert joined[0] == "--network" + "=" + "Host";
    assert GiveHost(pair, "--network") && GiveHost(mixed, "--network") && GiveHost(joined, "--network");
    DeniedExactly(pair, p);
    DeniedExactly(mixed, p);
    DeniedExactly(joined, p);
  }

  /** Case matters in one place, the option before an equals sign: with everything else allowed, this passes. */
  lemma CaseBeforeEquals(p: QuadletPolicy)
    requires p.allowPrivileged && p.allowHostPid && p.allowHostIpc && p.allowHostUserns && p.allowDevices && p.allowRootMount
    ensures !Denied(["--NETWORK=host"], p)
  {
    if Denied(["--NETWORK=host"], p) {
      DeniedAsks(["--NETWORK=host"], p);
      var option :| HostWithheld(option, p) && GiveHost(["--NETWORK=host"], option);
      OtherOption("--NETWORK=host", option);
      assert false;
    }
  }

  lemma ThirdChar(option: string, v: string)
    requires |option| > 2
    ensures (option + "=" + v)[2] == option[2]
  {
  }

  lemma OtherOption(token: string, option: string)
    requires |token| > |option| > 2 && token[2] != option[2]
    ensures !GiveHost([token], option)
  {
    assert |Lower(token)| == |token|;
    forall v ensures token != option + "=" + v {
      ThirdChar(option, v);
    }
  }
}
