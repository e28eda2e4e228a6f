/** The application-layer dispatcher: which payload decoder runs is decided
    by the transport ports alone, in a fixed order — HTTP on TCP port 80,
    DNS on UDP port 53, then a bare TLS label for TCP port 443.  The first
    rule whose port and transport match decides the verdict; later rules
    are not tried. */
module Application {
  import opened Bytes
  import opened PacketData
  import Http
  import Dns

  const HttpPort: u16 := 80
  const DnsPort: u16 := 53
  const TlsPort: u16 := 443

  /** The decoder's verdict and the application fields after it. */
  datatype AppResult = AppResult(ok: bool, app: ApplicationLayer)

  /** Either endpoint uses port p. */
  predicate OnPort(srcPort: u16, destPort: u16, p: u16)
  {
    srcPort == p || destPort == p
  }

  /** What the TLS rule writes: a label and a fixed summary, nothing parsed. */
  function TlsLabel(app: ApplicationLayer): ApplicationLayer
  {
    app.(protocol := "TLS", info := "Transport Layer Security")
  }

  /** The rule that decides a payload, if any. */
  datatype Rule = HttpRule | DnsRule | TlsRule | NoRule

  /** `ApplicationParser::parse`'s choice: HTTP needs TCP, DNS needs UDP,
      TLS needs TCP, and every rule needs a payload. */
  function RuleFor(payloadLength: nat, srcPort: u16, destPort: u16, isTcp: bool): (rule: Rule)
    ensures payloadLength == 0 ==> rule == NoRule
    ensures rule == HttpRule ==> isTcp && OnPort(srcPort, destPort, HttpPort)
    ensures rule == DnsRule ==> !isTcp && OnPort(srcPort, destPort, DnsPort)
    ensures rule == TlsRule ==> isTcp && OnPort(srcPort, destPort, TlsPort) && !OnPort(srcPort, destPort, HttpPort)
  {
    if payloadLength > 0 && isTcp && OnPort(srcPort, destPort, HttpPort) then HttpRule
    else if payloadLength > 0 && !isTcp && OnPort(srcPort, destPort, DnsPort) then DnsRule
    else if payloadLength > 0 && isTcp && OnPort(srcPort, destPort, TlsPort) then TlsRule
    else NoRule
  }

  /** `ApplicationParser::parse` as a function of the prior fields, the
      payload, the two ports and the transport. */
  function Classify(app: ApplicationLayer, payload: seq<byte>, srcPort: u16, destPort: u16, isTcp: bool): (r: AppResult)
    ensures |payload| == 0 ==> r == AppResult(false, app)
    ensures r.ok ==> r.app.protocol == "HTTP" || r.app.protocol == "DNS" || r.app.protocol == "TLS"
    ensures r.ok && r.app.protocol == "HTTP" ==> isTcp && OnPort(srcPort, destPort, HttpPort)
    ensures r.ok && r.app.protocol == "DNS" ==> !isTcp && OnPort(srcPort, destPort, DnsPort)
  {
    match RuleFor(|payload|, srcPort, destPort, isTcp)
    case HttpRule => var h := Http.Decode(payload, app); AppResult(h.ok, h.app)
    case DnsRule => var n := Dns.Decode(payload, app); AppResult(n.ok, n.app)
    case TlsRule => AppResult(true, TlsLabel(app))
    case NoRule => AppResult(false, app)
  }

  /** `ApplicationParser::parse`: the port tests in order, each returning
      the delegated parser's verdict. */
  method Parse(app0: ApplicationLayer, payload: seq<byte>, srcPort: u16, destPort: u16, isTcp: bool)
    returns (ok: bool, app: ApplicationLayer)
    ensures AppResult(ok, app) == Classify(app0, payload, srcPort, destPort, isTcp)
  {
    app := app0;
    if srcPort == 80 || destPort == 80 {
      if isTcp && |payload| > 0 {
        ok, app := Http.Parse(app, payload);
        return;
      }
    }
    if srcPort == 53 || destPort == 53 {
      if !isTcp && |payload| > 0 {
        ok, app := Dns.Parse(app, payload);
        return;
      }
    }
    if srcPort == 443 || destPort == 443 {
      if isTcp && |payload| > 0 {
        app := app.(protocol := "TLS");
        app := app.(info := "Transport Layer Security");
        return true, app;
      }
    }
    return false, app;
  }

  /** Port 80 over TCP hands the payload to the HTTP decoder and takes its
      verdict as final, whatever the other port is: a rejected HTTP
      payload between ports 80 and 443 is not labelled TLS. */
  lemma HttpHasPriority(app: ApplicationLayer, payload: seq<byte>, srcPort: u16, destPort: u16)
    requires |payload| > 0 && OnPort(srcPort, destPort, HttpPort)
    ensures var h := Http.Decode(payload, app);
      Classify(app, payload, srcPort, destPort, true) == AppResult(h.ok, h.app)
    ensures !Http.Decode(payload, app).ok ==> Classify(app, payload, srcPort, destPort, true) == AppResult(false, app)
  {
  }

  /** Port 53 over UDP hands the payload to the DNS decoder, even beside port 80. */
  lemma DnsOverUdp(app: ApplicationLayer, payload: seq<byte>, srcPort: u16, destPort: u16)
    requires |payload| > 0 && OnPort(srcPort, destPort, DnsPort)
    ensures var n := Dns.Decode(payload, app);
      Classify(app, payload, srcPort, destPort, false) == AppResult(n.ok, n.app)
  {
  }

  /** TCP port 443 with a payload, and no port 80, is labelled TLS and
      accepted; nothing else of the fields changes. */
  lemma TlsOverTcp(app: ApplicationLayer, payload: seq<byte>, srcPort: u16, destPort: u16)
    requires |payload| > 0 && OnPort(srcPort, destPort, TlsPort) && !OnPort(srcPort, destPort, HttpPort)
    ensures var r := Classify(app, payload, srcPort, destPort, true);
      r.ok && r.app.protocol == "TLS" && r.app.info == "Transport Layer Security"
      && r.app.(protocol := app.protocol, info := app.info) == app
  {
  }

  /** A payload no rule claims — UDP on port 443, or TCP on port 53, or
      any other port — is rejected and the fields are left as they were. */
  lemma Unclaimed(app: ApplicationLayer, payload: seq<byte>, srcPort: u16, destPort: u16, isTcp: bool)
    requires !(isTcp && (OnPort(srcPort, destPort, HttpPort) || OnPort(srcPort, destPort, TlsPort)))
    requires !(!isTcp && OnPort(srcPort, destPort, DnsPort))
    ensures Classify(app, payload, srcPort, destPort, isTcp) == AppResult(false, app)
  {
  }

  /** The fields change only when a rule claims the payload. */
  lemma ChangedOnlyWhenClaimed(app: ApplicationLayer, payload: seq<byte>, srcPort: u16, destPort: u16, isTcp: bool)
    requires Classify(app, payload, srcPort, destPort, isTcp).app != app
    ensures |payload| > 0
    ensures isTcp ==> OnPort(srcPort, destPort, HttpPort) || OnPort(srcPort, destPort, TlsPort)
    ensures !isTcp ==> OnPort(srcPort, destPort, DnsPort)
  {
  }
}
