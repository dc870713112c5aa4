/** The text of a script, and the device reading it back.

    The protocol is line-oriented, `name=value`. The device stops at the first
    line it does not understand or whose value it refuses. */
module ScriptText {
  import opened Wrappers
  import opened Sequences
  import opened Text
  import opened Keys
  import opened Netip
  import opened Device
  import opened Apply

  datatype Field =
    PrivateKeyField | ListenPortField | PublicKeyField | EndpointField
    | KeepaliveField | ReplaceField | AllowedField | RemoveField

  function FieldName(f: Field): string {
    match f
    case PrivateKeyField => "private_key"
    case ListenPortField => "listen_port"
    case PublicKeyField => "public_key"
    case EndpointField => "endpoint"
    case KeepaliveField => "persistent_keepalive_interval"
    case ReplaceField => "replace_allowed_ips"
    case AllowedField => "allowed_ip"
    case RemoveField => "remove"
  }

  function FieldOf(c: Command): Field {
    match c
    case SetPrivateKey(_) => PrivateKeyField
    case SetListenPort(_) => ListenPortField
    case SelectPeer(_) => PublicKeyField
    case SetEndpoint(_) => EndpointField
    case SetKeepalive(_) => KeepaliveField
    case ReplaceAllowedIPs => ReplaceField
    case AllowedIP(_) => AllowedField
    case RemovePeer => RemoveField
  }

  function ValueText(c: Command): string {
    match c
    case SetPrivateKey(k) => KeyInHex(k)
    case SetListenPort(n) => IntText(n)
    case SelectPeer(k) => KeyInHex(k)
    case SetEndpoint(e) => AddrPortText(e)
    case SetKeepalive(n) => IntText(n)
    case ReplaceAllowedIPs => "true"
    case AllowedIP(p) => PrefixText(p)
    case RemovePeer => "true"
  }

  function LineText(c: Command): string {
    FieldName(FieldOf(c)) + ['='] + ValueText(c)
  }

  /** The lines in the protocol's own words. */
  lemma LineFormat(k: Key, n: int, e: AddrPort, p: Prefix)
    ensures LineText(SetPrivateKey(k)) == "private_key=" + KeyInHex(k)
    ensures LineText(SetListenPort(n)) == "listen_port=" + IntText(n)
    ensures LineText(SelectPeer(k)) == "public_key=" + KeyInHex(k)
    ensures LineText(SetEndpoint(e)) == "endpoint=" + AddrPortText(e)
    ensures LineText(SetKeepalive(n)) == "persistent_keepalive_interval=" + IntText(n)
    ensures LineText(ReplaceAllowedIPs) == "replace_allowed_ips=true"
    ensures LineText(AllowedIP(p)) == "allowed_ip=" + PrefixText(p)
    ensures LineText(RemovePeer) == "remove=true"
  {
    NameAndSign();
  }

  lemma NameAndSign()
    ensures FieldName(PrivateKeyField) + ['='] == "private_key="
    ensures FieldName(ListenPortField) + ['='] == "listen_port="
    ensures FieldName(PublicKeyField) + ['='] == "public_key="
    ensures FieldName(EndpointField) + ['='] == "endpoint="
    ensures FieldName(KeepaliveField) + ['='] == "persistent_keepalive_interval="
    ensures FieldName(ReplaceField) + ['='] + "true" == "replace_allowed_ips=true"
    ensures FieldName(AllowedField) + ['='] == "allowed_ip="
    ensures FieldName(RemoveField) + ['='] + "true" == "remove=true"
  {
  }

  function Render(cmds: seq<Command>): string {
    if cmds == [] then []
    else Render(cmds[..|cmds| - 1]) + (LineText(cmds[|cmds| - 1]) + ['\n'])
  }

  // Reading

  function Accepted(c: Command): Option<Command> {
    if Accepts(c) then Some(c) else None
  }

  function ReadField(name: string): Option<Field> {
    if name == "private_key" then Some(PrivateKeyField)
    else if name == "listen_port" then Some(ListenPortField)
    else if name == "public_key" then Some(PublicKeyField)
    else if name == "endpoint" then Some(EndpointField)
    else if name == "persistent_keepalive_interval" then Some(KeepaliveField)
    else if name == "replace_allowed_ips" then Some(ReplaceField)
    else if name == "allowed_ip" then Some(AllowedField)
    else if name == "remove" then Some(RemoveField)
    else None
  }

  function ReadValue(field: Field, value: string): Option<Command> {
    match field
    case PrivateKeyField =>
      (match ParseHexKey(value) case None => None case Some(k) => Some(SetPrivateKey(k)))
    case PublicKeyField =>
      (match ParseHexKey(value) case None => None case Some(k) => Some(SelectPeer(k)))
    case ListenPortField =>
      (match ParseInt(value) case None => None case Some(n) => Accepted(SetListenPort(n)))
    case KeepaliveField =>
      (match ParseInt(value) case None => None case Some(n) => Accepted(SetKeepalive(n)))
    case EndpointField =>
      (match ParseAddrPort(value) case None => None case Some(e) => Accepted(SetEndpoint(e)))
    case AllowedField =>
      (match ParsePrefix(value) case None => None case Some(p) => Accepted(AllowedIP(p)))
    case ReplaceField => if value == "true" then Some(ReplaceAllowedIPs) else None
    case RemoveField => if value == "true" then Some(RemovePeer) else None
  }

  /** The command on a line, if the device takes it. */
  function ReadLine(line: string): Option<Command> {
    match SplitOnce(line, '=')
    case None => None
    case Some((name, value)) =>
      match ReadField(name)
      case None => None
      case Some(field) => ReadValue(field, value)
  }

  function ReadScript(text: string): seq<Option<Command>>
    decreases |text|
  {
    if text == [] then []
    else
      match SplitOnce(text, '\n')
      case None => [ReadLine(text)]
      case Some((line, rest)) => [ReadLine(line)] + ReadScript(rest)
  }

  function Heard(cmds: seq<Command>): seq<Option<Command>> {
    if cmds == [] then [] else [Accepted(cmds[0])] + Heard(cmds[1..])
  }

  // Round trip

  lemma FieldRoundTrip(f: Field)
    ensures ReadField(FieldName(f)) == Some(f)
  {
    var n := FieldName(f);
    assert n != [] && |n| == match f
      case PrivateKeyField => 11
      case ListenPortField => 11
      case PublicKeyField => 10
      case EndpointField => 8
      case KeepaliveField => 29
      case ReplaceField => 19
      case AllowedField => 10
      case RemoveField => 6;
    assert n[0] == match f
      case PrivateKeyField => 'p'
      case ListenPortField => 'l'
      case PublicKeyField => 'p'
      case EndpointField => 'e'
      case KeepaliveField => 'p'
      case ReplaceField => 'r'
      case AllowedField => 'a'
      case RemoveField => 'r';
  }

  lemma FieldNameAvoids(f: Field, c: char)
    requires c == '=' || c == '\n'
    ensures c !in FieldName(f)
  {
  }

  lemma PrefixValue(p: Prefix)
    ensures ParsePrefix(PrefixText(p)) == if p.Prefix? then Some(p) else None
  {
    if p.Prefix? {
      PrefixRoundTrip(PrefixText(p), p);
    } else {
      assert '/' !in PrefixText(NoPrefix);
    }
  }

  lemma EndpointValue(e: AddrPort)
    ensures ParseAddrPort(AddrPortText(e)) == if e.AddrPort? then Some(e) else None
  {
    if e.AddrPort? {
      AddrPortParses(e);
    } else {
      assert ':' !in AddrPortText(NoAddrPort);
    }
  }

  lemma KeyValueRoundTrip(k: Key)
    ensures ReadValue(PrivateKeyField, KeyInHex(k)) == Some(SetPrivateKey(k))
    ensures ReadValue(PublicKeyField, KeyInHex(k)) == Some(SelectPeer(k))
  {
    KeyRoundTrip(k);
  }

  lemma NumberValueRoundTrip(n: int)
    ensures ReadValue(ListenPortField, IntText(n)) == Accepted(SetListenPort(n))
    ensures ReadValue(KeepaliveField, IntText(n)) == Accepted(SetKeepalive(n))
  {
    IntRoundTrip(n);
  }

  lemma AddressValueRoundTrip(e: AddrPort, p: Prefix)
    ensures ReadValue(EndpointField, AddrPortText(e)) == Accepted(SetEndpoint(e))
    ensures ReadValue(AllowedField, PrefixText(p)) == Accepted(AllowedIP(p))
  {
    EndpointValue(e);
    PrefixValue(p);
  }

  lemma ConstantValueRoundTrip()
    ensures ReadValue(ReplaceField, "true") == Some(ReplaceAllowedIPs)
    ensures ReadValue(RemoveField, "true") == Some(RemovePeer)
  {
  }

  lemma ValueRoundTrip(c: Command)
    ensures ReadValue(FieldOf(c), ValueText(c)) == Accepted(c)
  {
    match c {
      case SetPrivateKey(k) => KeyValueRoundTrip(k);
      case SelectPeer(k) => KeyValueRoundTrip(k);
      case SetListenPort(n) => NumberValueRoundTrip(n);
      case SetKeepalive(n) => NumberValueRoundTrip(n);
      case SetEndpoint(e) => AddressValueRoundTrip(e, NoPrefix);
      case AllowedIP(p) => AddressValueRoundTrip(NoAddrPort, p);
      case ReplaceAllowedIPs => ConstantValueRoundTrip();
      case RemovePeer => ConstantValueRoundTrip();
    }
  }

  /** Every line is read back as the command it was written for. */
  lemma LineRoundTrip(c: Command)
    ensures ReadLine(LineText(c)) == Accepted(c)
  {
    var f := FieldOf(c);
    FieldNameAvoids(f, '=');
    SplitJoined(FieldName(f), '=', ValueText(c));
    FieldRoundTrip(f);
    ValueRoundTrip(c);
  }

  lemma ValueIsOneLine(c: Command)
    ensures '\n' !in ValueText(c)
  {
    match c {
      case SetPrivateKey(k) => HexAvoids(k, '\n');
      case SelectPeer(k) => HexAvoids(k, '\n');
      case SetListenPort(n) => IntTextAvoids(n, '\n');
      case SetKeepalive(n) => IntTextAvoids(n, '\n');
      case SetEndpoint(e) =>
        if e.AddrPort? {
          AddrTextAvoids(e.addr, '\n');
          DigitsAvoid(e.port, '\n');
        }
      case AllowedIP(p) =>
        if p.Prefix? {
          AddrTextAvoids(p.addr, '\n');
          DigitsAvoid(p.bits, '\n');
        }
      case ReplaceAllowedIPs =>
      case RemovePeer =>
    }
  }

  lemma LineIsOneLine(c: Command)
    ensures '\n' !in LineText(c)
  {
    FieldNameAvoids(FieldOf(c), '\n');
    ValueIsOneLine(c);
  }

  lemma {:induction false} RenderSnoc(front: seq<Command>, last: Command)
    ensures Render(front + [last]) == Render(front) + (LineText(last) + ['\n'])
  {
    FrontOfSnoc(front, last);
  }

  lemma {:induction false} RenderConcat(a: seq<Command>, b: seq<Command>)
    ensures Render(a + b) == Render(a) + Render(b)
  {
    if b == [] {
      assert a + b == a;
    } else {
      var front, last := b[..|b| - 1], b[|b| - 1];
      FrontAndLast(b);
      Regroup(a, front, [last]);
      RenderConcat(a, front);
      RenderSnoc(a + front, last);
      RenderSnoc(front, last);
      Regroup(Render(a), Render(front), LineText(last) + ['\n']);
    }
  }

  lemma {:induction false} RenderFirst(c: Command, rest: seq<Command>)
    ensures Render([c] + rest) == LineText(c) + ['\n'] + Render(rest)
  {
    RenderConcat([c], rest);
    RenderSnoc([], c);
    assert [] + [c] == [c];
    assert [] + (LineText(c) + ['\n']) == LineText(c) + ['\n'];
  }

  /** Reading a rendered script gives back its commands, line by line: blocks
      cannot run into each other, whatever the values are. */
  lemma {:induction false} ScriptRoundTrip(cmds: seq<Command>)
    ensures ReadScript(Render(cmds)) == Heard(cmds)
  {
    if cmds != [] {
      var c, rest := cmds[0], cmds[1..];
      HeadAndTail(cmds);
      RenderFirst(c, rest);
      LineIsOneLine(c);
      SplitJoined(LineText(c), '\n', Render(rest));
      LineRoundTrip(c);
      ScriptRoundTrip(rest);
    }
  }

  /** No two scripts that the device takes in full have the same text. */
  lemma {:induction false} RenderInjective(a: seq<Command>, b: seq<Command>)
    requires forall c :: c in a + b ==> Accepts(c)
    requires Render(a) == Render(b)
    ensures a == b
  {
    ScriptRoundTrip(a);
    ScriptRoundTrip(b);
    HeardInjective(a, b);
  }

  lemma {:induction false} HeardInjective(a: seq<Command>, b: seq<Command>)
    requires forall c :: c in a + b ==> Accepts(c)
    requires Heard(a) == Heard(b)
    ensures a == b
  {
    if a != [] && b != [] {
      assert a[0] in a + b && b[0] in a + b;
      assert Heard(a)[0] == Some(a[0]) && Heard(b)[0] == Some(b[0]);
      assert Heard(a)[1..] == Heard(a[1..]) && Heard(b)[1..] == Heard(b[1..]);
      forall c | c in a[1..] + b[1..]
        ensures Accepts(c)
      {
        assert c in a + b;
      }
      HeardInjective(a[1..], b[1..]);
      HeadAndTail(a);
      HeadAndTail(b);
    }
  }

  // Obeying

  /** The device works through what it hears until a line it does not take, or
      until the session breaks down after `fault` lines. */
  function Obey(curve: Key -> Key, s: Session, heard: seq<Option<Command>>, fault: Option<nat>): Session
    decreases |heard|
  {
    if heard == [] || heard[0].None? || fault == Some(0) then s
    else Obey(curve, Step(curve, s, heard[0].value), heard[1..], if fault.Some? then Some(fault.value - 1) else None)
  }

  predicate Complete(heard: seq<Option<Command>>, fault: Option<nat>) {
    fault.None? && forall i :: 0 <= i < |heard| ==> heard[i].Some?
  }

  /** Sending the text of a script runs its commands. */
  lemma {:induction false} ObeyRuns(curve: Key -> Key, s: Session, cmds: seq<Command>, fault: Option<nat>)
    ensures Obey(curve, s, Heard(cmds), fault) == Exec(curve, s, cmds[..ReachedLine(cmds, fault)])
    decreases |cmds|
  {
    var n := ReachedLine(cmds, fault);
    if n > 0 {
      var rest := cmds[1..];
      var fault' := if fault.Some? then Some(fault.value - 1) else None;
      ObeyRuns(curve, Step(curve, s, cmds[0]), rest, fault');
      assert ReachedLine(rest, fault') == n - 1;
      assert cmds[..n][1..] == rest[..n - 1];
    }
  }

  lemma {:induction false} CompleteIsDelivered(cmds: seq<Command>, fault: Option<nat>)
    ensures Complete(Heard(cmds), fault) <==> Delivered(cmds, fault)
  {
    if cmds != [] {
      var heard := Heard(cmds);
      CompleteIsDelivered(cmds[1..], fault);
      assert heard[1..] == Heard(cmds[1..]);
      if Complete(heard[1..], fault) && heard[0].Some? {
        forall i | 0 <= i < |heard|
          ensures heard[i].Some?
        {
          assert i > 0 ==> heard[i] == heard[1..][i - 1];
        }
      }
      if Complete(heard, fault) {
        forall i | 0 <= i < |heard[1..]|
          ensures heard[1..][i].Some?
        {
          assert heard[1..][i] == heard[i + 1];
        }
      }
    }
  }
}
