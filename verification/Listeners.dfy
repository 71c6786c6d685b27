/**
 * The listeners the portal owns (portal/listeners.go): a reconciler that brings the HTTPS
 * listener and the plain-HTTP redirect into line with a configuration. A bind may fail.
 */
module Listeners {
  import opened Common

  const STANDALONE: string := "standalone"
  const PROXY: string := "proxy"

  /** The TLS part of the runtime configuration. */
  datatype TlsConfig = TlsConfig(mode: string, listenAddr: string, redirectHTTP: bool, domain: string,
                                 acmeEnabled: bool, acmeEmail: string, acmeStaging: bool)

  /** The address the HTTPS listener is bound to, if any, and the host plain HTTP redirects to, if it does. */
  datatype Held = Held(server: Option<string>, front: Option<string>)

  const FRESH: Held := Held(None, None)

  // ----- what apply computes -----

  function Rebound(h: Held, cfg: TlsConfig, bindOk: bool): (Option<string>, bool) {
    if h.server == Some(cfg.listenAddr) then (h.server, true)
    else if bindOk then (Some(cfg.listenAddr), true)
    else (h.server, false)
  }

  /** The listeners after apply, and whether it succeeded. */
  function Apply(h: Held, cfg: TlsConfig, bindOk: bool): (Held, bool) {
    if cfg.mode != STANDALONE then (FRESH, true)
    else
      var (server, ok) := Rebound(h, cfg, bindOk);
      (Held(server, if cfg.redirectHTTP && server.Some? then Some(cfg.domain) else None), ok)
  }

  /** listenerRisky */
  predicate Risky(prev: TlsConfig, next: TlsConfig) {
    || (prev.mode == STANDALONE && next.mode != STANDALONE)
    || (next.redirectHTTP && !prev.redirectHTTP)
    || (next.mode == STANDALONE && prev.mode == STANDALONE && prev.listenAddr != next.listenAddr)
    || (next.redirectHTTP && prev.domain != next.domain)
  }

  class Manager {
    var serving: bool
    var tlsAddr: string
    var front: Option<string>

    ghost predicate Valid()
      reads this
    {
      !serving ==> tlsAddr == ""
    }

    function State(): Held
      reads this
    {
      Held(if serving then Some(tlsAddr) else None, front)
    }

    constructor ()
      ensures Valid() && State() == FRESH
    {
      serving, tlsAddr, front := false, "", None;
    }

    method ApplyConfig(cfg: TlsConfig, bindOk: bool) returns (ok: bool)
      requires Valid()
      modifies this
      ensures Valid() && (State(), ok) == Apply(old(State()), cfg, bindOk)
    {
      if cfg.mode != STANDALONE {
        StopTLS();
        front := None;
        return true;
      }
      ok := true;
      if !serving || tlsAddr != cfg.listenAddr {
        ok := StartTLS(cfg, bindOk);
      }
      if cfg.redirectHTTP && serving {
        front := Some(cfg.domain);
      } else {
        front := None;
      }
    }

    /** Bind first, release the old listener second. */
    method StartTLS(cfg: TlsConfig, bindOk: bool) returns (ok: bool)
      requires Valid()
      modifies this`serving, this`tlsAddr
      ensures Valid() && ok == bindOk
      ensures ok ==> serving && tlsAddr == cfg.listenAddr
      ensures !ok ==> serving == old(serving) && tlsAddr == old(tlsAddr)
    {
      if !bindOk {
        return false;
      }
      StopTLS();
      serving, tlsAddr := true, cfg.listenAddr;
      ok := true;
    }

    method StopTLS()
      modifies this`serving, this`tlsAddr
      requires Valid()
      ensures Valid() && !serving
    {
      if !serving {
        return;
      }
      serving, tlsAddr := false, "";
    }
  }

  // ----- sequences of applies -----

  /** One call: the configuration handed in and whether the bind, if attempted, works. */
  datatype Call = Call(cfg: TlsConfig, bindOk: bool)

  function After(calls: seq<Call>): Held {
    if calls == [] then FRESH
    else Apply(After(calls[..|calls| - 1]), calls[|calls| - 1].cfg, calls[|calls| - 1].bindOk).0
  }

  /** Whatever was applied and however the binds went, plain HTTP redirects only while HTTPS is held. */
  lemma {:induction false} RedirectOnlyWhileListening(calls: seq<Call>)
    ensures After(calls).front.Some? ==> After(calls).server.Some?
  {
    if calls != [] {
      RedirectOnlyWhileListening(calls[..|calls| - 1]);
    }
  }

  /** A failed apply leaves the listener and its address untouched. */
  lemma FailedApplyKeepsListener(h: Held, cfg: TlsConfig, bindOk: bool)
    requires !Apply(h, cfg, bindOk).1
    ensures Apply(h, cfg, bindOk).0.server == h.server && h.server != Some(cfg.listenAddr) && !bindOk
  {
  }

  /**
   * History does not matter: after a successful apply the listener and the redirect are those a
   * restart with the last configuration would give.
   */
  lemma SuccessForgetsHistory(h: Held, cfg: TlsConfig, bindOk: bool)
    requires Apply(h, cfg, bindOk).1
    ensures Apply(h, cfg, bindOk).0 == Apply(FRESH, cfg, true).0
  {
  }

  /** Whole sequences: two portals whose last apply succeeded with the same configuration are alike. */
  lemma LastConfigDecides(calls: seq<Call>, others: seq<Call>, last: Call, last': Call)
    requires last.cfg == last'.cfg
    requires Apply(After(calls), last.cfg, last.bindOk).1 && Apply(After(others), last'.cfg, last'.bindOk).1
    ensures After(calls + [last]) == After(others + [last'])
  {
    assert (calls + [last])[..|calls|] == calls && (others + [last'])[..|others|] == others;
    SuccessForgetsHistory(After(calls), last.cfg, last.bindOk);
    SuccessForgetsHistory(After(others), last'.cfg, last'.bindOk);
  }

  // ----- what an unarmed change can do -----

  /**
   * The running configuration, which a save compares against, and what is bound. The two may disagree in
   * every field: the table is shared, any section's save reloads all of it, and only a save of the TLS
   * section applies it; and an apply may fail.
   */
  datatype Running = Running(conf: TlsConfig, held: Held)

  /** A reload that applies nothing, or a save of the TLS section. */
  datatype Event = Reload(cfg: TlsConfig) | Save(cfg: TlsConfig, bindOk: bool)

  function Started(cfg: TlsConfig, bindOk: bool): Running {
    Running(cfg, Apply(FRESH, cfg, bindOk).0)
  }

  /** A save arms a rollback if the change is risky and could be applied. */
  predicate Arms(r: Running, next: TlsConfig, bindOk: bool) {
    Risky(r.conf, next) && Apply(r.held, next, bindOk).1
  }

  function Occurs(r: Running, e: Event): Running {
    match e
    case Reload(cfg) => r.(conf := cfg)
    case Save(cfg, bindOk) => Running(cfg, Apply(r.held, cfg, bindOk).0)
  }

  function Follows(r: Running, events: seq<Event>): Running {
    if events == [] then r else Occurs(Follows(r, events[..|events| - 1]), events[|events| - 1])
  }

  /**
   * A save that arms nothing leaves the HTTPS listener of a portal that means to be standalone alone if and
   * only if that listener is where the running configuration says, or the bind fails. After a save whose
   * bind failed, or a reload, it is not, and then any save moves it.
   */
  lemma UnarmedSaveKeepsListenerExactlyWhen(r: Running, next: TlsConfig, bindOk: bool)
    requires !Arms(r, next, bindOk) && r.conf.mode == STANDALONE
    ensures Apply(r.held, next, bindOk).0.server == r.held.server <==>
            r.held.server == Some(r.conf.listenAddr) || !bindOk
  {
  }

  /** It drops a held listener if and only if both configurations are proxy ones: a reload took standalone away. */
  lemma UnarmedSaveDropsListenerExactlyWhen(r: Running, next: TlsConfig, bindOk: bool)
    requires !Arms(r, next, bindOk) && r.held.server.Some?
    ensures Apply(r.held, next, bindOk).0.server.None? <==> r.conf.mode != STANDALONE && next.mode != STANDALONE
  {
  }

  /**
   * It makes plain HTTP redirect to somewhere new if and only if it asks for a redirect in standalone mode
   * to a host that is not redirected to yet, and HTTPS is held or can be bound. If it could be applied, the
   * running configuration already had the redirect to that host.
   */
  lemma UnarmedSaveRedirectsExactlyWhen(r: Running, next: TlsConfig, bindOk: bool)
    requires !Arms(r, next, bindOk)
    ensures var (after, ok) := Apply(r.held, next, bindOk);
            && (after.front.Some? && after.front != r.held.front <==>
                && next.mode == STANDALONE && next.redirectHTTP
                && (r.held.server.Some? || bindOk) && r.held.front != Some(next.domain))
            && (after.front.Some? && ok ==> r.conf.redirectHTTP && r.conf.domain == next.domain)
  {
  }

  /**
   * When the running configuration is the one applied last, a save that could be applied and armed nothing
   * starts a redirect if and only if nothing was held: the portal was a proxy, or its bind had failed.
   */
  lemma AppliedConfigRedirectsExactlyWhen(h: Held, conf: TlsConfig, worked: bool, next: TlsConfig, bindOk: bool)
    requires var r := Running(conf, Apply(h, conf, worked).0); !Arms(r, next, bindOk) && Apply(r.held, next, bindOk).1
    ensures var before := Apply(h, conf, worked).0;
            var after := Apply(before, next, bindOk).0;
            after.front.Some? && after.front != before.front <==>
            next.mode == STANDALONE && next.redirectHTTP && before.server.None?
  {
  }

  const EXAMPLE: TlsConfig := TlsConfig(STANDALONE, "0.0.0.0:443", true, "a.example.com", false, "", false)

  /** Saving nothing but an e-mail address. */
  function Mailed(cfg: TlsConfig): TlsConfig {
    cfg.(acmeEmail := "ops@example.com")
  }

  lemma OneEvent(r: Running, e: Event)
    ensures Follows(r, [e]) == Occurs(r, e)
  {
    assert [e][..0] == [];
    assert Follows(r, []) == r;
  }

  lemma TwoEvents(r: Running, d: Event, e: Event)
    ensures Follows(r, [d, e]) == Occurs(Occurs(r, d), e)
  {
    assert [d, e][..1] == [d];
    OneEvent(r, d);
  }

  /** From proxy to standalone with redirect_http already on. */
  lemma UnarmedRedirectFromProxy()
    ensures var r := Started(EXAMPLE.(mode := PROXY), true);
            && !Arms(r, EXAMPLE, true) && r.held.front == None
            && Follows(r, [Save(EXAMPLE, true)]).held.front == Some("a.example.com")
  {
    OneEvent(Started(EXAMPLE.(mode := PROXY), true), Save(EXAMPLE, true));
  }

  /** The bind at startup failed; the next harmless save starts listener and redirect. */
  lemma UnarmedRedirectAfterFailedStart()
    ensures var r := Started(EXAMPLE, false);
            && !Arms(r, Mailed(EXAMPLE), true) && r.held == FRESH
            && Follows(r, [Save(Mailed(EXAMPLE), true)]).held == Held(Some("0.0.0.0:443"), Some("a.example.com"))
  {
    OneEvent(Started(EXAMPLE, false), Save(Mailed(EXAMPLE), true));
  }

  /** A save that moves the listener and starts the redirect fails to bind: the redirect starts all the same. */
  lemma UnarmedRedirectByFailedSave()
    ensures var r := Started(EXAMPLE.(redirectHTTP := false), true);
            var moved := EXAMPLE.(listenAddr := "0.0.0.0:8443");
            && Risky(r.conf, moved) && !Arms(r, moved, false) && r.held.front == None
            && Follows(r, [Save(moved, false)]).held == Held(Some("0.0.0.0:443"), Some("a.example.com"))
  {
    OneEvent(Started(EXAMPLE.(redirectHTTP := false), true), Save(EXAMPLE.(listenAddr := "0.0.0.0:8443"), false));
  }

  /** A save to a new address fails to bind and arms nothing; the next harmless save moves the live listener there. */
  lemma UnarmedMoveAfterFailedSave()
    ensures var r, moved := Started(EXAMPLE, true), EXAMPLE.(listenAddr := "0.0.0.0:8443");
            && Risky(r.conf, moved) && !Arms(r, moved, false)
            && Follows(r, [Save(moved, false)]).held.server == Some("0.0.0.0:443")
            && !Arms(Follows(r, [Save(moved, false)]), Mailed(moved), true)
            && Follows(r, [Save(moved, false), Save(Mailed(moved), true)]).held.server == Some("0.0.0.0:8443")
  {
    var r, moved := Started(EXAMPLE, true), EXAMPLE.(listenAddr := "0.0.0.0:8443");
    OneEvent(r, Save(moved, false));
    TwoEvents(r, Save(moved, false), Save(Mailed(moved), true));
  }

  /** What a reload without an apply leads to: `reloaded` is what another process or section made of the table. */
  lemma HarmlessSaveAfterReload(applied: TlsConfig, reloaded: TlsConfig)
    ensures var r := Follows(Started(applied, true), [Reload(reloaded)]);
            && r.held == Started(applied, true).held && !Arms(r, Mailed(reloaded), true)
            && Follows(Started(applied, true), [Reload(reloaded), Save(Mailed(reloaded), true)]).held ==
               Apply(r.held, Mailed(reloaded), true).0
  {
    OneEvent(Started(applied, true), Reload(reloaded));
    TwoEvents(Started(applied, true), Reload(reloaded), Save(Mailed(reloaded), true));
  }

  /** Standalone was taken away in the table; the next harmless save drops the held listener. */
  lemma UnarmedDropAfterReload()
    ensures var proxied := EXAMPLE.(mode := PROXY);
            && Started(EXAMPLE, true).held.server == Some("0.0.0.0:443")
            && !Arms(Follows(Started(EXAMPLE, true), [Reload(proxied)]), Mailed(proxied), true)
            && Follows(Started(EXAMPLE, true), [Reload(proxied), Save(Mailed(proxied), true)]).held == FRESH
  {
    HarmlessSaveAfterReload(EXAMPLE, EXAMPLE.(mode := PROXY));
  }

  /** The redirect was switched on in the table; the next harmless save starts it beside a held listener. */
  lemma UnarmedRedirectAfterReload()
    ensures var off := EXAMPLE.(redirectHTTP := false);
            && Started(off, true).held == Held(Some("0.0.0.0:443"), None)
            && !Arms(Follows(Started(off, true), [Reload(EXAMPLE)]), Mailed(EXAMPLE), true)
            && Follows(Started(off, true), [Reload(EXAMPLE), Save(Mailed(EXAMPLE), true)]).held.front ==
               Some("a.example.com")
  {
    HarmlessSaveAfterReload(EXAMPLE.(redirectHTTP := false), EXAMPLE);
  }

  /** The public URL moved and took the certificate host along; the next harmless save retargets the redirect. */
  lemma UnarmedRedirectAfterPublicURL()
    ensures var moved := EXAMPLE.(domain := "b.example.com");
            && Started(EXAMPLE, true).held.front == Some("a.example.com")
            && !Arms(Follows(Started(EXAMPLE, true), [Reload(moved)]), Mailed(moved), true)
            && Follows(Started(EXAMPLE, true), [Reload(moved), Save(Mailed(moved), true)]).held.front ==
               Some("b.example.com")
  {
    HarmlessSaveAfterReload(EXAMPLE, EXAMPLE.(domain := "b.example.com"));
  }

  // ----- what apply puts in force, and when a save is armed -----

  /** A successful apply serves what the configuration says. */
  lemma AppliedConfigIsServed(h: Held, cfg: TlsConfig, bindOk: bool)
    requires Apply(h, cfg, bindOk).1
    ensures cfg.mode == STANDALONE ==>
              Apply(h, cfg, bindOk).0 == Held(Some(cfg.listenAddr), if cfg.redirectHTTP then Some(cfg.domain) else None)
    ensures cfg.mode != STANDALONE ==> Apply(h, cfg, bindOk).0 == FRESH
  {
  }

  /** Switching the redirect off takes effect whether or not the bind works. */
  lemma RedirectGoesEvenIfTheBindFails(h: Held, cfg: TlsConfig, bindOk: bool)
    requires !cfg.redirectHTTP
    ensures Apply(h, cfg, bindOk).0.front == None
  {
  }

  /**
   * From a standalone portal that serves its configuration, a save that stays standalone and binds is armed
   * exactly when it moves the listener or makes plain HTTP redirect somewhere new. In particular, removing
   * the redirect is not.
   */
  lemma StandaloneSaveArmsExactlyWhen(prev: TlsConfig, next: TlsConfig)
    requires prev.mode == STANDALONE && next.mode == STANDALONE
    ensures var r := Started(prev, true);
            var after := Apply(r.held, next, true).0;
            Arms(r, next, true) <==>
            after.server != r.held.server || (after.front.Some? && after.front != r.held.front)
  {
  }

  /** Leaving standalone mode is armed from whatever state, since it drops the listener. */
  lemma LeavingStandaloneIsArmed(r: Running, next: TlsConfig, bindOk: bool)
    requires r.conf.mode == STANDALONE && next.mode != STANDALONE
    ensures Arms(r, next, bindOk)
  {
  }

  /**
   * From proxy mode a save that could be applied is armed exactly when it asks for a redirect that was not
   * asked for before - also when it stays a proxy, where nothing redirects.
   */
  lemma ProxySaveArmsExactlyWhen(r: Running, next: TlsConfig, bindOk: bool)
    requires r.conf.mode != STANDALONE && Apply(r.held, next, bindOk).1
    ensures Arms(r, next, bindOk) <==>
            next.redirectHTTP && Some(next.domain) != (if r.conf.redirectHTTP then Some(r.conf.domain) else None)
  {
  }

  /** A save that changes nothing but removes the redirect, or changes neither it nor the address, arms nothing. */
  lemma HarmlessSaveArmsNothing(r: Running, next: TlsConfig, bindOk: bool)
    requires next.mode == r.conf.mode && next.listenAddr == r.conf.listenAddr
    requires next.redirectHTTP ==> r.conf.redirectHTTP && next.domain == r.conf.domain
    ensures !Arms(r, next, bindOk)
  {
  }

}
