/**
 * The two passes over one argument vector: the client process reads it for the port of its servent, the
 * servent process for the port it listens on. The passes know different options and step over different
 * numbers of words.
 */
module Arguments {
  import opened Basics

  // ----- Words -----

  predicate IsListen(w: string) {
    w == "--listen" || w == "-l"
  }

  predicate IsContact(w: string) {
    w == "--contact" || w == "-c"
  }

  predicate IsFirst(w: string) {
    w == "--first" || w == "-f"
  }

  predicate IsClientRedirect(w: string) {
    w == "-cout" || w == "-cerr"
  }

  predicate IsServerRedirect(w: string) {
    w == "-sout" || w == "-serr"
  }

  predicate IsOption(w: string) {
    IsListen(w) || IsContact(w) || IsFirst(w) || IsClientRedirect(w) || IsServerRedirect(w)
  }

  predicate IsSpace(c: char) {
    c == ' ' || 9 <= c as int <= 13
  }

  predicate IsDigit(c: char) {
    48 <= c as int <= 57
  }

  function Number(digits: string): nat
    requires forall c :: c in digits ==> IsDigit(c)
  {
    if digits == "" then 0
    else
      var n := |digits| - 1;
      assert IsDigit(digits[n]);
      10 * Number(digits[..n]) + (digits[n] as int - 48)
  }

  function SkipSpaces(w: string): string {
    if w != "" && IsSpace(w[0]) then SkipSpaces(w[1..]) else w
  }

  /**
   * `check_port`: `strtol` must stop at the end of the word on a value strictly between 1024 and 65536.
   * Leading blanks and a plus sign are let through; a minus sign cannot reach the range.
   */
  predicate CheckPort(w: string) {
    var t := SkipSpaces(w);
    var digits := if t != "" && t[0] == '+' then t[1..] else t;
    digits != "" && (forall c :: c in digits ==> IsDigit(c)) && 1024 < Number(digits) < 65536
  }

  /** `check_ip` is `inet_pton`; all that is used of it is that no option is an address. */
  ghost predicate AddressTest(isIp: string -> bool) {
    forall w :: isIp(w) ==> !IsOption(w)
  }

  // ----- What the passes compute -----

  datatype Problem = TooFewWords | InvalidPort | InvalidIp

  datatype ClientArgs = ClientArgs(
    contactPort: Option<string>, out: Option<string>, err: Option<string>, error: Option<Problem>)

  datatype ServerArgs = ServerArgs(
    first: bool, contactIp: Option<string>, contactPort: Option<string>, listenPort: Option<string>,
    out: Option<string>, err: Option<string>, error: Option<Problem>)

  const NO_CLIENT_ARGS := ClientArgs(None, None, None, None)
  const NO_SERVER_ARGS := ServerArgs(false, None, None, None, None, None, None)

  function ClientPass(words: seq<string>, a: ClientArgs): ClientArgs {
    if words == [] then a
    else if IsListen(words[0]) then
      if |words| < 2 then a.(error := Some(TooFewWords))
      else if !CheckPort(words[1]) then a.(error := Some(InvalidPort))
      else ClientPass(words[2..], a.(contactPort := Some(words[1])))
    else if IsClientRedirect(words[0]) then
      if |words| < 2 then a.(error := Some(TooFewWords))
      else if words[0] == "-cout" then ClientPass(words[2..], a.(out := Some(words[1])))
      else ClientPass(words[2..], a.(err := Some(words[1])))
    else ClientPass(words[1..], a)
  }

  function ServerPass(isIp: string -> bool, words: seq<string>, a: ServerArgs): ServerArgs {
    if words == [] then a
    else if IsFirst(words[0]) then ServerPass(isIp, words[1..], a.(first := true))
    else if IsContact(words[0]) then
      if |words| < 3 then a.(error := Some(TooFewWords))
      else if !isIp(words[1]) then a.(error := Some(InvalidIp))
      else if !CheckPort(words[2]) then a.(error := Some(InvalidPort))
      else ServerPass(isIp, words[3..], a.(contactIp := Some(words[1]), contactPort := Some(words[2])))
    else if IsListen(words[0]) then
      if |words| < 2 then a.(error := Some(TooFewWords))
      else if !CheckPort(words[1]) then a.(error := Some(InvalidPort))
      else ServerPass(isIp, words[2..], a.(listenPort := Some(words[1])))
    else if IsServerRedirect(words[0]) then
      if |words| < 2 then a.(error := Some(TooFewWords))
      else if words[0] == "-sout" then ServerPass(isIp, words[2..], a.(out := Some(words[1])))
      else ServerPass(isIp, words[2..], a.(err := Some(words[1])))
    else ServerPass(isIp, words[1..], a)
  }

  // ----- The loops -----

  class ClientArgv {
    var contactPort: Option<string>
    var stdoutRedirect: Option<string>
    var stderrRedirect: Option<string>
    var error: Option<Problem>

    function Value(): ClientArgs
      reads this
    {
      ClientArgs(contactPort, stdoutRedirect, stderrRedirect, error)
    }

    constructor ()
      ensures Value() == NO_CLIENT_ARGS
    {
      contactPort, stdoutRedirect, stderrRedirect, error := None, None, None, None;
    }

    /** `handle_argv_client` */
    method Handle(argv: seq<string>)
      modifies this
      ensures Value() == ClientPass(argv, old(Value()))
    {
      var i := 0;
      while i < |argv|
        invariant 0 <= i <= |argv|
        invariant ClientPass(argv[i..], Value()) == ClientPass(argv, old(Value()))
      {
        var increment := 1;
        var value := argv[i];
        if IsListen(value) {
          if |argv| <= i + 1 {
            error := Some(TooFewWords);
            return;
          }
          if !CheckPort(argv[i + 1]) {
            error := Some(InvalidPort);
            return;
          }
          contactPort := Some(argv[i + 1]);
          increment := 2;
        } else if value == "-cout" {
          if |argv| <= i + 1 {
            error := Some(TooFewWords);
            return;
          }
          stdoutRedirect := Some(argv[i + 1]);
          increment := 2;
        } else if value == "-cerr" {
          if |argv| <= i + 1 {
            error := Some(TooFewWords);
            return;
          }
          stderrRedirect := Some(argv[i + 1]);
          increment := 2;
        }
        assert argv[i..][increment..] == argv[i + increment..];
        i := i + increment;
      }
    }
  }

  class ServerArgv {
    var firstMachine: bool
    var contactIp: Option<string>
    var contactPort: Option<string>
    var listenPort: Option<string>
    var stdoutRedirect: Option<string>
    var stderrRedirect: Option<string>
    var error: Option<Problem>

    function Value(): ServerArgs
      reads this
    {
      ServerArgs(firstMachine, contactIp, contactPort, listenPort, stdoutRedirect, stderrRedirect, error)
    }

    constructor ()
      ensures Value() == NO_SERVER_ARGS
    {
      firstMachine, contactIp, contactPort, listenPort := false, None, None, None;
      stdoutRedirect, stderrRedirect, error := None, None, None;
    }

    /** `handle_argv_server` */
    method Handle(isIp: string -> bool, argv: seq<string>)
      modifies this
      ensures Value() == ServerPass(isIp, argv, old(Value()))
    {
      var i := 0;
      while i < |argv|
        invariant 0 <= i <= |argv|
        invariant ServerPass(isIp, argv[i..], Value()) == ServerPass(isIp, argv, old(Value()))
      {
        var increment := 1;
        var value := argv[i];
        if IsFirst(value) {
          firstMachine := true;
        } else if IsContact(value) {
          if |argv| <= i + 2 {
            error := Some(TooFewWords);
            return;
          }
          if !isIp(argv[i + 1]) {
            error := Some(InvalidIp);
            return;
          }
          if !CheckPort(argv[i + 2]) {
            error := Some(InvalidPort);
            return;
          }
          contactIp := Some(argv[i + 1]);
          contactPort := Some(argv[i + 2]);
          increment := 3;
        } else if IsListen(value) {
          if |argv| <= i + 1 {
            error := Some(TooFewWords);
            return;
          }
          if !CheckPort(argv[i + 1]) {
            error := Some(InvalidPort);
            return;
          }
          listenPort := Some(argv[i + 1]);
          increment := 2;
        } else if value == "-sout" {
          if |argv| <= i + 1 {
            error := Some(TooFewWords);
            return;
          }
          stdoutRedirect := Some(argv[i + 1]);
          increment := 2;
        } else if value == "-serr" {
          if |argv| <= i + 1 {
            error := Some(TooFewWords);
            return;
          }
          stderrRedirect := Some(argv[i + 1]);
          increment := 2;
        }
        assert argv[i..][increment..] == argv[i + increment..];
        i := i + increment;
      }
    }
  }

  // ----- When the passes agree -----

  /**
   * The operands of a redirection that the other pass would take for an option moving it out of step: the
   * pass that does not know the redirection reads its operand as a word of its own.
   */
  predicate Misread(redirect: string, operand: string) {
    if IsClientRedirect(redirect) then IsListen(operand) || IsServerRedirect(operand)
    else IsServerRedirect(redirect) && (IsListen(operand) || IsClientRedirect(operand))
  }

  /** No redirection met by both passes has a misread operand. */
  predicate InStep(words: seq<string>)
    decreases |words|
  {
    if words == [] then true
    else if IsListen(words[0]) then InStep(words[if |words| < 2 then |words| else 2..])
    else if IsContact(words[0]) then InStep(words[if |words| < 3 then |words| else 3..])
    else if IsClientRedirect(words[0]) || IsServerRedirect(words[0]) then
      |words| >= 2 ==>
        && !Misread(words[0], words[1])
        && InStep(words[if IsClientRedirect(words[0]) && IsContact(words[1]) then 1 else 2..])
    else InStep(words[1..])
  }

  predicate Accepted(isIp: string -> bool, argv: seq<string>) {
    ClientPass(argv, NO_CLIENT_ARGS).error.None? && ServerPass(isIp, argv, NO_SERVER_ARGS).error.None?
  }

  /** The client contacts the port its servent listens on (or both use the default). */
  predicate SamePort(isIp: string -> bool, argv: seq<string>) {
    ClientPass(argv, NO_CLIENT_ARGS).contactPort == ServerPass(isIp, argv, NO_SERVER_ARGS).listenPort
  }

  lemma DashIsNoPort(w: string)
    requires w != "" && w[0] == '-'
    ensures !CheckPort(w)
  {
    assert SkipSpaces(w) == w;
    assert w[0] in w && !IsDigit(w[0]);
  }

  lemma PortIsNoOption(w: string)
    requires CheckPort(w)
    ensures !IsOption(w)
  {
    if IsOption(w) {
      DashIsNoPort(w);
    }
  }

  /** The client walks over a contact option word by word. */
  lemma ClientSteps(words: seq<string>, c: ClientArgs)
    requires |words| >= 3 && IsContact(words[0]) && !IsOption(words[1]) && !IsOption(words[2])
    ensures ClientPass(words, c) == ClientPass(words[3..], c)
  {
    assert words[1..][1..] == words[2..] && words[2..][1..] == words[3..];
    assert ClientPass(words[1..], c) == ClientPass(words[2..], c) == ClientPass(words[3..], c);
  }

  /** From equal ports, over words in step, both passes without an error end with equal ports. */
  lemma {:induction false} KeepsSamePort(isIp: string -> bool, words: seq<string>, c: ClientArgs, s: ServerArgs)
    requires AddressTest(isIp) && InStep(words)
    requires c.contactPort == s.listenPort
    requires ClientPass(words, c).error.None? && ServerPass(isIp, words, s).error.None?
    ensures ClientPass(words, c).contactPort == ServerPass(isIp, words, s).listenPort
    decreases |words|
  {
    if words == [] {
    } else if IsListen(words[0]) {
      KeepsSamePort(isIp, words[2..], c.(contactPort := Some(words[1])), s.(listenPort := Some(words[1])));
    } else if IsContact(words[0]) {
      PortIsNoOption(words[2]);
      ClientSteps(words, c);
      KeepsSamePort(isIp, words[3..], c, s.(contactIp := Some(words[1]), contactPort := Some(words[2])));
    } else if IsClientRedirect(words[0]) {
      var c' := if words[0] == "-cout" then c.(out := Some(words[1])) else c.(err := Some(words[1]));
      assert words[1..][1..] == words[2..];
      if IsContact(words[1]) {
        assert ClientPass(words[1..], c') == ClientPass(words[2..], c');
        KeepsSamePort(isIp, words[1..], c', s);
      } else {
        var s' := if IsFirst(words[1]) then s.(first := true) else s;
        KeepsSamePort(isIp, words[2..], c', s');
      }
    } else if IsServerRedirect(words[0]) {
      var s' := if words[0] == "-sout" then s.(out := Some(words[1])) else s.(err := Some(words[1]));
      assert words[1..][1..] == words[2..];
      KeepsSamePort(isIp, words[2..], c, s');
    } else {
      KeepsSamePort(isIp, words[1..], c, if IsFirst(words[0]) then s.(first := true) else s);
    }
  }

  /** For every argument vector in step that both processes accept, client and servent meet. */
  lemma PassesAgree(isIp: string -> bool, argv: seq<string>)
    requires AddressTest(isIp) && InStep(argv) && Accepted(isIp, argv)
    ensures SamePort(isIp, argv)
  {
    KeepsSamePort(isIp, argv, NO_CLIENT_ARGS, NO_SERVER_ARGS);
  }

  /** A rest of the command line that parts the passes behind a misread operand. */
  function Parting(operand: string): seq<string> {
    if IsListen(operand) then ["5000"] else ["-l", "5000"]
  }

  lemma FiveThousand()
    ensures CheckPort("5000")
  {
    assert SkipSpaces("5000") == "5000";
    assert "5000"[..3] == "500" && "500"[..2] == "50" && "50"[..1] == "5" && "5"[..0] == "";
    assert Number("5") == 5 && Number("50") == 50 && Number("500") == 500 && Number("5000") == 5000;
  }

  lemma PlainWord(isIp: string -> bool, w: string, c: ClientArgs, s: ServerArgs)
    requires !IsOption(w)
    ensures ClientPass([w], c) == c && ServerPass(isIp, [w], s) == s
  {
    assert [w][1..] == [];
  }

  lemma ListenPair(isIp: string -> bool, w: string, port: string, c: ClientArgs, s: ServerArgs)
    requires IsListen(w) && CheckPort(port)
    ensures ClientPass([w, port], c) == c.(contactPort := Some(port))
    ensures ServerPass(isIp, [w, port], s) == s.(listenPort := Some(port))
  {
    assert [w, port][2..] == [];
  }

  lemma MisreadParts(isIp: string -> bool, redirect: string, operand: string)
    requires Misread(redirect, operand)
    ensures var argv := [redirect, operand] + Parting(operand);
            InStep(Parting(operand)) && Accepted(isIp, argv) && !SamePort(isIp, argv)
  {
    FiveThousand();
    PortIsNoOption("5000");
    var tail := Parting(operand);
    var argv := [redirect, operand] + tail;
    var c, s := NO_CLIENT_ARGS, NO_SERVER_ARGS;
    var c' := if redirect == "-cout" then c.(out := Some(operand)) else c.(err := Some(operand));
    var s' := if redirect == "-sout" then s.(out := Some(operand)) else s.(err := Some(operand));
    assert argv[1..] == [operand] + tail && argv[2..] == tail;
    if IsListen(operand) {
      assert [operand] + tail == [operand, "5000"];
      ListenPair(isIp, operand, "5000", c, s);
      PlainWord(isIp, "5000", c', s');
      assert tail[1..] == [];
    } else {
      var x := argv[1..];
      assert x[2..] == ["5000"] && x[1] == "-l" && tail == ["-l", "5000"] && tail[2..] == [];
      ListenPair(isIp, "-l", "5000", c', s');
      if IsClientRedirect(redirect) {
        PlainWord(isIp, "5000", c, if operand == "-sout" then s.(out := Some("-l")) else s.(err := Some("-l")));
      } else {
        PlainWord(isIp, "5000", if operand == "-cout" then c.(out := Some("-l")) else c.(err := Some("-l")), s);
      }
    }
  }

  /** A contact option the servent accepts is followed by two plain words. */
  lemma AddressInStep(isIp: string -> bool, words: seq<string>, s: ServerArgs)
    requires AddressTest(isIp) && words != [] && IsContact(words[0]) && InStep(words[1..])
    requires ServerPass(isIp, words, s).error.None?
    ensures InStep(words)
  {
    if |words| >= 3 {
      PortIsNoOption(words[2]);
      assert words[1..][1..] == words[2..] && words[2..][1..] == words[3..];
    }
  }

  /**
   * Exactly which operands are safe: a redirection with its operand leaves the passes in agreement in
   * front of every rest of the command line that is itself in step, if and only if neither pass misreads
   * the operand.
   */
  lemma OperandExact(isIp: string -> bool, redirect: string, operand: string)
    requires AddressTest(isIp) && (IsClientRedirect(redirect) || IsServerRedirect(redirect))
    ensures (forall tail: seq<string> ::
               InStep(tail) && Accepted(isIp, [redirect, operand] + tail) ==> SamePort(isIp, [redirect, operand] + tail))
            <==> !Misread(redirect, operand)
  {
    if Misread(redirect, operand) {
      MisreadParts(isIp, redirect, operand);
    } else {
      forall tail: seq<string> | InStep(tail) && Accepted(isIp, [redirect, operand] + tail)
        ensures SamePort(isIp, [redirect, operand] + tail)
      {
        var argv := [redirect, operand] + tail;
        assert argv[2..] == tail;
        if IsClientRedirect(redirect) && IsContact(operand) {
          AddressInStep(isIp, argv[1..], NO_SERVER_ARGS);
        }
        PassesAgree(isIp, argv);
      }
    }
  }

  // ----- Where the passes stop, and what they keep -----

  predicate IsServerOut(w: string) {
    w == "-sout"
  }

  predicate IsServerErr(w: string) {
    w == "-serr"
  }

  predicate IsClientOut(w: string) {
    w == "-cout"
  }

  predicate IsClientErr(w: string) {
    w == "-cerr"
  }

  /** No word is two options. */
  lemma OneOption(w: string)
    ensures IsContact(w) ==> !IsListen(w) && !IsFirst(w) && !IsServerRedirect(w)
    ensures IsListen(w) ==> !IsFirst(w) && !IsServerRedirect(w) && !IsClientRedirect(w)
    ensures IsFirst(w) ==> !IsServerRedirect(w)
    ensures IsServerRedirect(w) <==> IsServerOut(w) || IsServerErr(w)
    ensures IsClientRedirect(w) <==> IsClientOut(w) || IsClientErr(w)
    ensures !(IsServerOut(w) && IsServerErr(w)) && !(IsClientOut(w) && IsClientErr(w))
  {
  }

  /** The spellings. */
  lemma SpellingsAre(w: string)
    ensures IsContact(w) <==> w in ["--contact", "-c"]
    ensures IsListen(w) <==> w in ["--listen", "-l"]
    ensures IsFirst(w) <==> w in ["--first", "-f"]
    ensures IsServerRedirect(w) <==> w in ["-sout", "-serr"]
    ensures IsClientRedirect(w) <==> w in ["-cout", "-cerr"]
    ensures (IsServerOut(w) <==> w == "-sout") && (IsServerErr(w) <==> w == "-serr")
    ensures (IsClientOut(w) <==> w == "-cout") && (IsClientErr(w) <==> w == "-cerr")
  {
  }

  /** The words an option of the servent takes up. */
  function ServerStride(w: string): nat {
    if IsContact(w) then 3 else if IsListen(w) || IsServerRedirect(w) then 2 else 1
  }

  function ClientStride(w: string): nat {
    if IsListen(w) || IsClientRedirect(w) then 2 else 1
  }

  /** Word i is one the pass looks at, and not an operand. */
  predicate StopsAt(stride: string -> nat, words: seq<string>, i: nat)
    requires forall w :: stride(w) > 0
    decreases |words|
  {
    words != [] &&
    (i == 0 || (stride(words[0]) <= i && stride(words[0]) <= |words| &&
                StopsAt(stride, words[stride(words[0])..], i - stride(words[0]))))
  }

  /** Word i is the last the pass looks at that is a spelling of the option. */
  ghost predicate IsLast(stride: string -> nat, words: seq<string>, option: string -> bool, i: nat)
    requires forall w :: stride(w) > 0
  {
    && i < |words| && StopsAt(stride, words, i) && option(words[i])
    && forall j :: i < j < |words| && StopsAt(stride, words, j) ==> !option(words[j])
  }

  /** No word the pass looks at is a spelling of the option. */
  ghost predicate IsAbsent(stride: string -> nat, words: seq<string>, option: string -> bool)
    requires forall w :: stride(w) > 0
  {
    forall j :: 0 <= j < |words| && StopsAt(stride, words, j) ==> !option(words[j])
  }

  function LastAt(stride: string -> nat, words: seq<string>, option: string -> bool): Option<nat>
    requires forall w :: stride(w) > 0
    decreases |words|
  {
    if words == [] then None
    else
      var n := stride(words[0]);
      var later := if n <= |words| then LastAt(stride, words[n..], option) else None;
      if later.Some? then Some(n + later.value)
      else if option(words[0]) then Some(0)
      else None
  }

  /** Behind the first option and its operands, the stops are those of the rest. */
  lemma StopsLater(stride: string -> nat, words: seq<string>, j: nat)
    requires (forall w :: stride(w) > 0) && words != [] && j > 0
    ensures var n := stride(words[0]);
            StopsAt(stride, words, j) <==> n <= j && n <= |words| && StopsAt(stride, words[n..], j - n)
  {
  }

  lemma {:induction false} LastAtIsLast(stride: string -> nat, words: seq<string>, option: string -> bool)
    requires forall w :: stride(w) > 0
    ensures var last := LastAt(stride, words, option);
            if last.Some? then IsLast(stride, words, option, last.value) else IsAbsent(stride, words, option)
    decreases |words|
  {
    if words != [] {
      var n, last := stride(words[0]), LastAt(stride, words, option);
      assert StopsAt(stride, words, 0);
      var rest := if n <= |words| then words[n..] else [];
      if n <= |words| {
        LastAtIsLast(stride, rest, option);
      }
      if last.Some? && last.value >= n {
        StopsLater(stride, words, last.value);
      }
      hide StopsAt;
      forall j | 0 < j < |words| && StopsAt(stride, words, j) && (last.Some? ==> j > last.value)
        ensures !option(words[j])
      {
        StopsLater(stride, words, j);
        assert words[j] == rest[j - n];
      }
    }
  }

  lemma OneLast(stride: string -> nat, words: seq<string>, option: string -> bool, i: nat)
    requires (forall w :: stride(w) > 0) && IsLast(stride, words, option, i)
    ensures LastAt(stride, words, option) == Some(i)
  {
    LastAtIsLast(stride, words, option);
    hide StopsAt, LastAt;
  }

  /** The word `k` places behind the last occurrence of the option, or what was known before. */
  function Operand(stride: string -> nat, words: seq<string>, option: string -> bool, k: nat, known: Option<string>)
    : Option<string>
    requires forall w :: stride(w) > 0
  {
    var last := LastAt(stride, words, option);
    if last.None? then known
    else if last.value + k < |words| then Some(words[last.value + k])
    else None
  }

  /** Behind an option with its operands, an operand is found in the rest, or else is the option's own. */
  lemma OperandLater(stride: string -> nat, words: seq<string>, option: string -> bool, k: nat, known: Option<string>)
    requires (forall w :: stride(w) > 0) && words != [] && stride(words[0]) <= |words|
    ensures var n := stride(words[0]);
            Operand(stride, words, option, k, known) ==
            Operand(stride, words[n..], option, k,
                    if !option(words[0]) then known
                    else if k < |words| then Some(words[k]) else None)
  {
    LastAtIsLast(stride, words[stride(words[0])..], option);
    hide StopsAt;
  }

  /** What the servent's pass keeps, read off the words it stops at. */
  lemma {:induction false} ServerKeeps(isIp: string -> bool, words: seq<string>, a: ServerArgs)
    requires ServerPass(isIp, words, a).error.None?
    ensures var r := ServerPass(isIp, words, a);
            && r.contactIp == Operand(ServerStride, words, IsContact, 1, a.contactIp)
            && r.contactPort == Operand(ServerStride, words, IsContact, 2, a.contactPort)
            && r.listenPort == Operand(ServerStride, words, IsListen, 1, a.listenPort)
            && r.out == Operand(ServerStride, words, IsServerOut, 1, a.out)
            && r.err == Operand(ServerStride, words, IsServerErr, 1, a.err)
            && (r.first <==> a.first || LastAt(ServerStride, words, IsFirst).Some?)
    decreases |words|
  {
    if words != [] {
      var n, b := ServerStride(words[0]), ServerStep(words, a);
      assert ServerComplete(isIp, words, 0);
      ServerSteps(isIp, words, a);
      hide ServerPass, CheckPort, Operand;
      ServerKeeps(isIp, words[n..], b);
      OperandLater(ServerStride, words, IsContact, 1, a.contactIp);
      OperandLater(ServerStride, words, IsContact, 2, a.contactPort);
      OperandLater(ServerStride, words, IsListen, 1, a.listenPort);
      OperandLater(ServerStride, words, IsServerOut, 1, a.out);
      OperandLater(ServerStride, words, IsServerErr, 1, a.err);
    }
  }

  /** What one complete option adds. */
  function ServerStep(words: seq<string>, a: ServerArgs): ServerArgs
    requires words != [] && ServerStride(words[0]) <= |words|
  {
    var w := words[0];
    if IsFirst(w) then a.(first := true)
    else if IsContact(w) then a.(contactIp := Some(words[1]), contactPort := Some(words[2]))
    else if IsListen(w) then a.(listenPort := Some(words[1]))
    else if IsServerOut(w) then a.(out := Some(words[1]))
    else if IsServerErr(w) then a.(err := Some(words[1]))
    else a
  }

  lemma ServerSteps(isIp: string -> bool, words: seq<string>, a: ServerArgs)
    requires words != [] && ServerComplete(isIp, words, 0)
    ensures ServerStride(words[0]) <= |words| && ServerStep(words, a).error == a.error
    ensures ServerPass(isIp, words, a) == ServerPass(isIp, words[ServerStride(words[0])..], ServerStep(words, a))
  {
    hide CheckPort;
  }

  lemma CompleteLater(isIp: string -> bool, words: seq<string>, n: nat, j: nat)
    requires n + j < |words|
    ensures ServerComplete(isIp, words, n + j) <==> ServerComplete(isIp, words[n..], j)
  {
    hide CheckPort;
  }

  lemma ServerStopsHere(isIp: string -> bool, words: seq<string>, a: ServerArgs)
    requires words != [] && !ServerComplete(isIp, words, 0) && a.error.None?
    ensures ServerPass(isIp, words, a).error.Some? && IsProblem(isIp, words, 0, ServerPass(isIp, words, a).error.value)
  {
    hide CheckPort;
  }

  /** A pass fails exactly when an option it stops at lacks an operand or has a bad one. */
  lemma {:induction false} ServerFails(isIp: string -> bool, words: seq<string>, a: ServerArgs)
    requires a.error.None?
    ensures ServerPass(isIp, words, a).error.None? <==>
            forall i :: 0 <= i < |words| && StopsAt(ServerStride, words, i) ==> ServerComplete(isIp, words, i)
    decreases |words|
  {
    if words != [] {
      var n := ServerStride(words[0]);
      assert StopsAt(ServerStride, words, 0);
      hide ServerPass, CheckPort, ServerComplete, ServerStep;
      if ServerComplete(isIp, words, 0) {
        ServerSteps(isIp, words, a);
        var rest := words[n..];
        ServerFails(isIp, rest, ServerStep(words, a));
        forall i | 0 < i < |words|
          ensures StopsAt(ServerStride, words, i) <==> n <= i && StopsAt(ServerStride, rest, i - n)
          ensures n <= i ==> (ServerComplete(isIp, words, i) <==> ServerComplete(isIp, rest, i - n))
        {
          StopsLater(ServerStride, words, i);
          if n <= i {
            CompleteLater(isIp, words, n, i - n);
          }
        }
        hide StopsAt;
        forall j | 0 <= j < |rest| && StopsAt(ServerStride, rest, j)
          ensures StopsAt(ServerStride, words, n + j)
        {
          assert StopsAt(ServerStride, rest, (n + j) - n);
        }
      } else {
        ServerStopsHere(isIp, words, a);
      }
    } else {
      assert ServerPass(isIp, words, a) == a;
    }
  }

  /** The option at word i has all its operands, and good ones. */
  predicate ServerComplete(isIp: string -> bool, words: seq<string>, i: nat)
    requires i < |words|
  {
    && (IsContact(words[i]) ==> i + 2 < |words| && isIp(words[i + 1]) && CheckPort(words[i + 2]))
    && (IsListen(words[i]) ==> i + 1 < |words| && CheckPort(words[i + 1]))
    && (IsServerRedirect(words[i]) ==> i + 1 < |words|)
  }

  lemma LastIs(stride: string -> nat, words: seq<string>, option: string -> bool)
    requires forall w :: stride(w) > 0
    ensures forall i: nat :: IsLast(stride, words, option, i) <==> LastAt(stride, words, option) == Some(i)
    ensures LastAt(stride, words, option).None? <==> IsAbsent(stride, words, option)
  {
    LastAtIsLast(stride, words, option);
    hide StopsAt, LastAt;
    forall i: nat | IsLast(stride, words, option, i)
      ensures LastAt(stride, words, option) == Some(i)
    {
      OneLast(stride, words, option, i);
    }
  }

  /** Each occurrence of the option has its k-th operand, and a good one. */
  ghost predicate AllGood(stride: string -> nat, words: seq<string>, option: string -> bool, k: nat, good: string -> bool)
    requires forall w :: stride(w) > 0
  {
    forall i :: 0 <= i < |words| && StopsAt(stride, words, i) && option(words[i]) ==>
      i + k < |words| && good(words[i + k])
  }

  /** The field is the k-th word behind the last occurrence of its option, a good one, or unset without any. */
  ghost predicate FieldLaw(stride: string -> nat, words: seq<string>, option: string -> bool, k: nat,
                           field: Option<string>, good: string -> bool)
    requires forall w :: stride(w) > 0
  {
    && (field.Some? <==> !IsAbsent(stride, words, option))
    && (field.Some? ==> good(field.value))
    && forall i: nat :: IsLast(stride, words, option, i) ==> i + k < |words| && field == Some(words[i + k])
  }

  lemma FieldIs(stride: string -> nat, words: seq<string>, option: string -> bool, k: nat,
                field: Option<string>, good: string -> bool)
    requires (forall w :: stride(w) > 0) && field == Operand(stride, words, option, k, None)
    requires AllGood(stride, words, option, k, good)
    ensures FieldLaw(stride, words, option, k, field, good)
  {
    LastIs(stride, words, option);
    var last := LastAt(stride, words, option);
    hide StopsAt, LastAt, IsAbsent;
    if last.Some? {
      assert IsLast(stride, words, option, last.value);
      assert last.value + k < |words| && good(words[last.value + k]);
    }
    hide IsLast;
  }

  predicate AnyWord(w: string) {
    true
  }

  lemma AreGood(stride: string -> nat, words: seq<string>, option: string -> bool, k: nat, good: string -> bool)
    requires forall w :: stride(w) > 0
    requires forall i: nat :: i < |words| && StopsAt(stride, words, i) && option(words[i]) ==>
               i + k < |words| && good(words[i + k])
    ensures AllGood(stride, words, option, k, good)
  {
  }

  lemma ServerGood(isIp: string -> bool, argv: seq<string>, any: string -> bool, port: string -> bool)
    requires ServerPass(isIp, argv, NO_SERVER_ARGS).error.None?
    requires forall w :: any(w) && (port(w) <==> CheckPort(w))
    ensures AllGood(ServerStride, argv, IsContact, 1, isIp) && AllGood(ServerStride, argv, IsContact, 2, port)
    ensures AllGood(ServerStride, argv, IsListen, 1, port)
    ensures AllGood(ServerStride, argv, IsServerOut, 1, any) && AllGood(ServerStride, argv, IsServerErr, 1, any)
  {
    ServerFails(isIp, argv, NO_SERVER_ARGS);
    hide ServerPass, CheckPort;
    forall i: nat | i < |argv| && StopsAt(ServerStride, argv, i)
      ensures IsContact(argv[i]) ==> i + 1 < |argv| && isIp(argv[i + 1])
      ensures IsContact(argv[i]) ==> i + 2 < |argv| && port(argv[i + 2])
      ensures IsListen(argv[i]) ==> i + 1 < |argv| && port(argv[i + 1])
      ensures IsServerOut(argv[i]) || IsServerErr(argv[i]) ==> i + 1 < |argv| && any(argv[i + 1])
    {
      assert ServerComplete(isIp, argv, i);
      OneOption(argv[i]);
    }
    hide ServerComplete, IsContact, IsListen, IsServerOut, IsServerErr, StopsAt, AllGood;
    AreGood(ServerStride, argv, IsContact, 1, isIp);
    AreGood(ServerStride, argv, IsContact, 2, port);
    AreGood(ServerStride, argv, IsListen, 1, port);
    AreGood(ServerStride, argv, IsServerOut, 1, any);
    AreGood(ServerStride, argv, IsServerErr, 1, any);
  }

  /**
   * What the servent has learnt from a command line it accepts: its contact is the address and the port, in
   * this order, behind the last contact option its pass stops at, both of them checked; likewise the port it
   * listens on, and its redirections; and it is the first machine if a word says so.
   */
  lemma ServerLaw(isIp: string -> bool, argv: seq<string>)
    requires ServerPass(isIp, argv, NO_SERVER_ARGS).error.None?
    ensures var r := ServerPass(isIp, argv, NO_SERVER_ARGS);
            && FieldLaw(ServerStride, argv, IsContact, 1, r.contactIp, isIp)
            && FieldLaw(ServerStride, argv, IsContact, 2, r.contactPort, CheckPort)
            && FieldLaw(ServerStride, argv, IsListen, 1, r.listenPort, CheckPort)
            && FieldLaw(ServerStride, argv, IsServerOut, 1, r.out, AnyWord)
            && FieldLaw(ServerStride, argv, IsServerErr, 1, r.err, AnyWord)
            && (r.first <==> !IsAbsent(ServerStride, argv, IsFirst))
  {
    var r := ServerPass(isIp, argv, NO_SERVER_ARGS);
    ServerKeeps(isIp, argv, NO_SERVER_ARGS);
    ServerGood(isIp, argv, AnyWord, CheckPort);
    LastIs(ServerStride, argv, IsFirst);
    hide *;
    FieldIs(ServerStride, argv, IsContact, 1, r.contactIp, isIp);
    FieldIs(ServerStride, argv, IsContact, 2, r.contactPort, CheckPort);
    FieldIs(ServerStride, argv, IsListen, 1, r.listenPort, CheckPort);
    FieldIs(ServerStride, argv, IsServerOut, 1, r.out, AnyWord);
    FieldIs(ServerStride, argv, IsServerErr, 1, r.err, AnyWord);
  }

  lemma {:induction false} ClientKeeps(words: seq<string>, a: ClientArgs)
    requires ClientPass(words, a).error.None?
    ensures var r := ClientPass(words, a);
            && r.contactPort == Operand(ClientStride, words, IsListen, 1, a.contactPort)
            && r.out == Operand(ClientStride, words, IsClientOut, 1, a.out)
            && r.err == Operand(ClientStride, words, IsClientErr, 1, a.err)
    decreases |words|
  {
    if words != [] {
      var n, w := ClientStride(words[0]), words[0];
      var b := if IsListen(w) then a.(contactPort := Some(words[1]))
               else if IsClientOut(w) then a.(out := Some(words[1]))
               else if IsClientErr(w) then a.(err := Some(words[1]))
               else a;
      assert n <= |words| && ClientPass(words, a) == ClientPass(words[n..], b);
      hide ClientPass, CheckPort, Operand;
      ClientKeeps(words[n..], b);
      OperandLater(ClientStride, words, IsListen, 1, a.contactPort);
      OperandLater(ClientStride, words, IsClientOut, 1, a.out);
      OperandLater(ClientStride, words, IsClientErr, 1, a.err);
    }
  }

  /** The option at word i has its operand, and a good one. */
  predicate ClientComplete(words: seq<string>, i: nat)
    requires i < |words|
  {
    (IsListen(words[i]) ==> i + 1 < |words| && CheckPort(words[i + 1])) &&
    (IsClientRedirect(words[i]) ==> i + 1 < |words|)
  }

  lemma {:induction false} ClientFails(words: seq<string>, a: ClientArgs)
    requires a.error.None?
    ensures ClientPass(words, a).error.None? <==>
            forall i :: 0 <= i < |words| && StopsAt(ClientStride, words, i) ==> ClientComplete(words, i)
    decreases |words|
  {
    if words != [] {
      var n, w := ClientStride(words[0]), words[0];
      assert StopsAt(ClientStride, words, 0);
      if ClientComplete(words, 0) {
        var b := if IsListen(w) then a.(contactPort := Some(words[1]))
                 else if IsClientOut(w) then a.(out := Some(words[1]))
                 else if IsClientErr(w) then a.(err := Some(words[1]))
                 else a;
        var rest := words[n..];
        assert ClientPass(words, a) == ClientPass(rest, b);
        ClientFails(rest, b);
        hide ClientPass, CheckPort;
        forall i | 0 < i < |words|
          ensures StopsAt(ClientStride, words, i) <==> n <= i && StopsAt(ClientStride, rest, i - n)
          ensures n <= i ==> (ClientComplete(words, i) <==> ClientComplete(rest, i - n))
        {
          StopsLater(ClientStride, words, i);
        }
        hide StopsAt, ClientComplete;
        forall j | 0 <= j < |rest| && StopsAt(ClientStride, rest, j)
          ensures StopsAt(ClientStride, words, n + j)
        {
          assert StopsAt(ClientStride, rest, (n + j) - n);
        }
      }
    }
  }

  lemma ClientGood(argv: seq<string>, any: string -> bool, port: string -> bool)
    requires ClientPass(argv, NO_CLIENT_ARGS).error.None? && forall w :: any(w) && (port(w) <==> CheckPort(w))
    ensures AllGood(ClientStride, argv, IsListen, 1, port)
    ensures AllGood(ClientStride, argv, IsClientOut, 1, any) && AllGood(ClientStride, argv, IsClientErr, 1, any)
  {
    ClientFails(argv, NO_CLIENT_ARGS);
    hide ClientPass, CheckPort;
    forall i: nat | i < |argv| && StopsAt(ClientStride, argv, i)
      ensures IsListen(argv[i]) ==> i + 1 < |argv| && port(argv[i + 1])
      ensures IsClientOut(argv[i]) || IsClientErr(argv[i]) ==> i + 1 < |argv| && any(argv[i + 1])
    {
      assert ClientComplete(argv, i);
      OneOption(argv[i]);
    }
    hide ClientComplete, IsListen, IsClientOut, IsClientErr, StopsAt, AllGood;
    AreGood(ClientStride, argv, IsListen, 1, port);
    AreGood(ClientStride, argv, IsClientOut, 1, any);
    AreGood(ClientStride, argv, IsClientErr, 1, any);
  }

  /** The same for the client: the port of its servent, and its own redirections. */
  lemma ClientLaw(argv: seq<string>)
    requires ClientPass(argv, NO_CLIENT_ARGS).error.None?
    ensures var r := ClientPass(argv, NO_CLIENT_ARGS);
            && FieldLaw(ClientStride, argv, IsListen, 1, r.contactPort, CheckPort)
            && FieldLaw(ClientStride, argv, IsClientOut, 1, r.out, AnyWord)
            && FieldLaw(ClientStride, argv, IsClientErr, 1, r.err, AnyWord)
  {
    var r := ClientPass(argv, NO_CLIENT_ARGS);
    ClientKeeps(argv, NO_CLIENT_ARGS);
    ClientGood(argv, AnyWord, CheckPort);
    hide *;
    FieldIs(ClientStride, argv, IsListen, 1, r.contactPort, CheckPort);
    FieldIs(ClientStride, argv, IsClientOut, 1, r.out, AnyWord);
    FieldIs(ClientStride, argv, IsClientErr, 1, r.err, AnyWord);
  }

  /** What is wrong with the option at word i. */
  predicate IsProblem(isIp: string -> bool, words: seq<string>, i: nat, problem: Problem)
    requires i < |words|
  {
    if i + ServerStride(words[i]) > |words| then problem == TooFewWords
    else if IsContact(words[i]) && !isIp(words[i + 1]) then problem == InvalidIp
    else problem == InvalidPort
  }

  /** A pass that fails says what is wrong with an option it stops at. */
  lemma {:induction false} ServerProblem(isIp: string -> bool, words: seq<string>, a: ServerArgs) returns (i: nat)
    requires a.error.None? && ServerPass(isIp, words, a).error.Some?
    ensures i < |words| && StopsAt(ServerStride, words, i) && !ServerComplete(isIp, words, i)
    ensures IsProblem(isIp, words, i, ServerPass(isIp, words, a).error.value)
    decreases |words|
  {
    assert words == [] ==> ServerPass(isIp, words, a) == a;
    hide ServerPass, CheckPort, ServerComplete, ServerStep, IsProblem;
    if !ServerComplete(isIp, words, 0) {
      i := 0;
      ServerStopsHere(isIp, words, a);
    } else {
      var n, rest := ServerStride(words[0]), words[ServerStride(words[0])..];
      ServerSteps(isIp, words, a);
      var j := ServerProblem(isIp, rest, ServerStep(words, a));
      i := n + j;
      assert words[i] == rest[j];
      StopsLater(ServerStride, words, i);
      CompleteLater(isIp, words, n, j);
      ProblemLater(isIp, words, n, j, ServerPass(isIp, words, a).error.value);
    }
  }

  lemma ProblemLater(isIp: string -> bool, words: seq<string>, n: nat, j: nat, problem: Problem)
    requires n + j < |words|
    ensures IsProblem(isIp, words, n + j, problem) <==> IsProblem(isIp, words[n..], j, problem)
  {
  }

  // ----- Ports -----

  /** A number as it is written. */
  function Decimal(n: nat): (w: string)
    ensures w != "" && forall c :: c in w ==> IsDigit(c)
    ensures Number(w) == n
  {
    var last := (48 + n % 10) as char;
    if n < 10 then
      assert [last][..0] == "" && Number([last]) == n;
      [last]
    else
      var front := Decimal(n / 10);
      assert (front + [last])[..|front|] == front;
      front + [last]
  }

  /** The ports let through are those strictly between 1024 and 65536. */
  lemma PortsExact(n: nat)
    ensures CheckPort(Decimal(n)) <==> 1024 < n < 65536
  {
    var w := Decimal(n);
    assert w[0] in w && IsDigit(w[0]);
    assert SkipSpaces(w) == w;
  }
}
