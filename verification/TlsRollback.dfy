/**
 * The end-to-end rollback of a TLS settings save. It crosses the settings table
 * (portal/internal/settings), the configuration builder (portal/config_settings.go), the reload
 * (portal/runtime.go), the reconciler and the armed closure (portal/listeners.go), and the save
 * handler (portal/admin_settings.go).
 */
module TlsRollback {
  import opened Common
  import opened Secrets
  import opened Settings
  import opened Listeners

  const TLS: string := "tls"
  const PORTAL: string := "portal"

  /** The registry's tls section: no secrets, and these defaults. */
  const TLS_KEYS: map<string, Def> := map[
    "mode" := Def(PROXY, false),
    "domain" := Def("", false),
    "listen_addr" := Def("0.0.0.0:443", false),
    "redirect_http" := Def("false", false),
    "acme_enabled" := Def("false", false),
    "acme_email" := Def("", false),
    "acme_staging" := Def("false", false)
  ]

  // ----- typed readers over a loaded snapshot -----

  /** Values.String: a missing or empty value reads as the default. */
  function ReadString(v: Values, key: string, def: string): string {
    if key in v && v[key] != "" then v[key] else def
  }

  /** strconv.ParseBool */
  function ParseBool(s: string): Option<bool> {
    if s in {"1", "t", "T", "TRUE", "true", "True"} then Some(true)
    else if s in {"0", "f", "F", "FALSE", "false", "False"} then Some(false)
    else None
  }

  /** Values.Bool: a missing, empty or malformed value reads as the default. */
  function ReadBool(v: Values, key: string, def: bool): bool {
    if key !in v || v[key] == "" then def
    else
      match ParseBool(TrimSpace(v[key]))
      case Some(b) => b
      case None => def
  }

  function TrimSlashes(s: string): string {
    if s != "" && s[|s| - 1] == '/' then TrimSlashes(s[..|s| - 1]) else s
  }

  /** What the portal is configured with, besides the settings table. */
  datatype Env = Env(reg: Registry, ring: Keyring, hostFromURL: string -> string)

  ghost predicate Registered(env: Env) {
    Keys(env.reg, TLS) == TLS_KEYS
  }

  // ----- loading and building -----

  predicate AllLoadable(env: Env, rows: Rows) {
    forall section :: section in rows ==> Loadable(env.reg, env.ring, section, rows[section])
  }

  /** One section as LoadSection returns it, and as it appears in LoadAll's snapshot. */
  function Snapshot(env: Env, rows: Rows, section: string): Values
    requires Loadable(env.reg, env.ring, section, SectionRows(rows, section))
  {
    Revealed(env.reg, env.ring, section, SectionRows(rows, section))
  }

  function PublicURL(env: Env, rows: Rows): string
    requires AllLoadable(env, rows)
  {
    TrimSlashes(ReadString(Snapshot(env, rows, PORTAL), "public_url", ""))
  }

  /** The TLS fields that applyRuntimeSettings assigns. */
  function BuildFrom(v: Values, urlHost: string): TlsConfig {
    TlsConfig(
      ReadString(v, "mode", PROXY),
      ReadString(v, "listen_addr", "0.0.0.0:443"),
      ReadBool(v, "redirect_http", false),
      ReadString(v, "domain", urlHost),
      ReadBool(v, "acme_enabled", false),
      ReadString(v, "acme_email", ""),
      ReadBool(v, "acme_staging", false))
  }

  function Build(env: Env, rows: Rows): TlsConfig
    requires AllLoadable(env, rows)
  {
    BuildFrom(Snapshot(env, rows, TLS), env.hostFromURL(PublicURL(env, rows)))
  }

  // ----- the portal -----

  datatype App = App(rows: Rows, conf: TlsConfig, held: Held)

  /** reloadRuntime: a table that cannot be read leaves the running configuration alone. */
  function Reloaded(env: Env, a: App): App {
    if AllLoadable(env, a.rows) then a.(conf := Build(env, a.rows)) else a
  }

  /** The values a rollback writes: defaults for the keys that never had a row, then the old section. */
  function Restore(prevSection: Values): Values {
    (map k | k in TLS_KEYS :: TLS_KEYS[k].default) + prevSection
  }

  /** saveSettingsSection for the tls section: what is stored, reloaded, applied and armed. */
  function SaveTls(env: Env, a: App, submitted: Values, nonces: string -> string, bindOk: bool): (App, Option<Values>)
    requires Loadable(env.reg, env.ring, TLS, SectionRows(a.rows, TLS))
  {
    var stored := Snapshot(env, a.rows, TLS);
    var merged := Merged(env.reg, TLS, stored, Allowed(env.reg, TLS, submitted));
    if merged == map[] then (a, None)
    else
      var saved := Reloaded(env, a.(rows := Saved(env.reg, env.ring, nonces, a.rows, TLS, merged)));
      var (held, ok) := Apply(saved.held, saved.conf, bindOk);
      (saved.(held := held), if Risky(a.conf, saved.conf) && ok then Some(Restore(stored)) else None)
  }

  /** The armed closure: save, reload, reconcile. */
  function RolledBack(env: Env, a: App, restore: Values, nonces: string -> string, bindOk: bool): (App, bool) {
    var saved := Reloaded(env, a.(rows := Saved(env.reg, env.ring, nonces, a.rows, TLS, restore)));
    var (held, ok) := Apply(saved.held, saved.conf, bindOk);
    (saved.(held := held), ok)
  }

  // ----- the portal's methods -----

  class Portal {
    const env: Env
    const settings: Store
    const listeners: Manager
    var conf: TlsConfig

    ghost predicate Valid()
      reads this, settings, listeners
    {
      settings.reg == env.reg && settings.ring == env.ring && listeners.Valid()
    }

    ghost function State(): App
      reads this, settings, listeners
    {
      App(settings.rows, conf, listeners.State())
    }

    constructor (env: Env, settings: Store, listeners: Manager, conf: TlsConfig)
      requires settings.reg == env.reg && settings.ring == env.ring && listeners.Valid()
      ensures Valid() && State() == App(settings.rows, conf, listeners.State())
    {
      this.env := env;
      this.settings := settings;
      this.listeners := listeners;
      this.conf := conf;
    }

    method Reload()
      requires Valid()
      modifies this
      ensures Valid() && State() == Reloaded(env, old(State()))
    {
      if AllLoadable(env, settings.rows) {
        conf := Build(env, settings.rows);
      }
    }

    /**
     * Saving the tls section. Nothing is saved when the section cannot be read or the form names no
     * known key; otherwise the armed restore values come back if the change was risky and applied.
     */
    method SaveSection(submitted: Values, nonces: string -> string, bindOk: bool) returns (armed: Option<Values>)
      requires Valid()
      modifies this, settings, listeners
      ensures Valid()
      ensures if Loadable(env.reg, env.ring, TLS, SectionRows(old(State()).rows, TLS))
              then (State(), armed) == SaveTls(env, old(State()), submitted, nonces, bindOk)
              else State() == old(State()) && armed == None
    {
      var filtered := Allowed(env.reg, TLS, submitted);
      var stored := settings.LoadSection(TLS);
      if filtered == map[] || stored.None? {
        return None;
      }
      var merged := settings.ApplySecretUpdates(TLS, stored.value, filtered);
      assert merged.Keys == filtered.Keys;
      var prev := conf;
      settings.Save(TLS, merged, nonces);
      Reload();
      armed := ApplyListenerChange(prev, stored.value, bindOk);
    }

    /** Reconciles the listeners after a save; the restore values come back if a rollback is armed. */
    method ApplyListenerChange(prev: TlsConfig, prevSection: Values, bindOk: bool) returns (armed: Option<Values>)
      requires Valid()
      modifies listeners
      ensures Valid() && conf == old(conf) && settings.rows == old(settings.rows)
      ensures var (held, ok) := Apply(old(State()).held, conf, bindOk);
              State().held == held && armed == if Risky(prev, conf) && ok then Some(Restore(prevSection)) else None
    {
      var ok := listeners.ApplyConfig(conf, bindOk);
      if !Risky(prev, conf) || !ok {
        return None;
      }
      armed := Some(Restore(prevSection));
    }

    /** The closure a risky save arms. */
    method RollBack(restore: Values, nonces: string -> string, bindOk: bool) returns (ok: bool)
      requires Valid()
      modifies this, settings, listeners
      ensures Valid() && (State(), ok) == RolledBack(env, old(State()), restore, nonces, bindOk)
    {
      settings.Save(TLS, restore, nonces);
      Reload();
      ok := listeners.ApplyConfig(conf, bindOk);
    }
  }

  // ----- the table around a tls save -----

  lemma TlsHasNoSecrets(env: Env, key: string)
    requires Registered(env)
    ensures !IsSecret(env.reg, TLS, key)
  {
  }

  lemma TlsLoadsPlain(env: Env, stored: Values)
    requires Registered(env)
    ensures Loadable(env.reg, env.ring, TLS, stored) && Revealed(env.reg, env.ring, TLS, stored) == stored
  {
    forall k | k in stored ensures Reveal(env.reg, env.ring, TLS, k, stored[k]) == Ok(stored[k]) {
      TlsHasNoSecrets(env, k);
    }
  }

  lemma TlsStoresPlain(env: Env, nonces: string -> string, rows: Rows, values: Values)
    requires Registered(env)
    ensures SectionRows(Saved(env.reg, env.ring, nonces, rows, TLS, values), TLS) == SectionRows(rows, TLS) + values
  {
    forall k | k in values ensures Conceal(env.reg, env.ring, nonces, TLS, k, values[k]) == values[k] {
      TlsHasNoSecrets(env, k);
    }
    assert Concealed(env.reg, env.ring, nonces, TLS, values) == values;
    if values == map[] {
      assert SectionRows(rows, TLS) + values == SectionRows(rows, TLS);
    }
  }

  lemma TlsSaveStaysLoadable(env: Env, nonces: string -> string, rows: Rows, values: Values)
    requires Registered(env) && AllLoadable(env, rows)
    ensures AllLoadable(env, Saved(env.reg, env.ring, nonces, rows, TLS, values))
  {
    var rows' := Saved(env.reg, env.ring, nonces, rows, TLS, values);
    forall section | section in rows' ensures Loadable(env.reg, env.ring, section, rows'[section]) {
      if section == TLS {
        TlsLoadsPlain(env, rows'[TLS]);
      } else {
        SaveKeepsOtherSections(env.reg, env.ring, nonces, rows, TLS, values, section);
      }
    }
  }

  /** tls values go into the table and come out of it unchanged, and nothing else moves. */
  lemma TlsSaveIsPlain(env: Env, nonces: string -> string, rows: Rows, values: Values)
    requires Registered(env) && AllLoadable(env, rows)
    ensures var rows' := Saved(env.reg, env.ring, nonces, rows, TLS, values);
            && AllLoadable(env, rows')
            && Snapshot(env, rows', TLS) == Snapshot(env, rows, TLS) + values
            && Snapshot(env, rows', PORTAL) == Snapshot(env, rows, PORTAL)
  {
    TlsSaveStaysLoadable(env, nonces, rows, values);
    var rows' := Saved(env.reg, env.ring, nonces, rows, TLS, values);
    TlsStoresPlain(env, nonces, rows, values);
    TlsLoadsPlain(env, SectionRows(rows, TLS));
    TlsLoadsPlain(env, SectionRows(rows', TLS));
    SaveKeepsOtherSections(env.reg, env.ring, nonces, rows, TLS, values, PORTAL);
  }

  // ----- restoring -----

  /** `full` holds what `v` holds for `key`, or the default `v` stands for. */
  ghost predicate Stands(v: Values, full: Values, key: string, def: string) {
    key in full && full[key] == if key in v then v[key] else def
  }

  /** A stored default reads back as the default it stands for. */
  lemma DefaultReadsAsDefault(v: Values, full: Values, key: string, def: string)
    requires Stands(v, full, key, def)
    ensures ReadString(full, key, def) == ReadString(v, key, def)
    ensures def == "false" ==> ReadBool(full, key, false) == ReadBool(v, key, false)
    ensures def == "" ==> forall other :: ReadString(full, key, other) == ReadString(v, key, other)
  {
    TrimFalse();
  }

  lemma TrimFalse()
    ensures TrimSpace("false") == "false"
  {
  }

  /** Every key of the section holds what `v` holds, or the default. */
  ghost predicate AllStand(v: Values, full: Values) {
    && Stands(v, full, "mode", PROXY)
    && Stands(v, full, "listen_addr", "0.0.0.0:443")
    && Stands(v, full, "redirect_http", "false")
    && Stands(v, full, "domain", "")
    && Stands(v, full, "acme_enabled", "false")
    && Stands(v, full, "acme_email", "")
    && Stands(v, full, "acme_staging", "false")
  }

  lemma RestoreStandsAt(prev: Values, later: Values, key: string, def: string)
    requires key in TLS_KEYS && TLS_KEYS[key].default == def
    ensures Stands(prev, later + Restore(prev), key, def)
  {
  }

  lemma RestoreStands(prev: Values, later: Values)
    ensures AllStand(prev, later + Restore(prev))
  {
    RestoreStandsAt(prev, later, "mode", PROXY);
    RestoreStandsAt(prev, later, "listen_addr", "0.0.0.0:443");
    RestoreStandsAt(prev, later, "redirect_http", "false");
    RestoreStandsAt(prev, later, "domain", "");
    RestoreStandsAt(prev, later, "acme_enabled", "false");
    RestoreStandsAt(prev, later, "acme_email", "");
    RestoreStandsAt(prev, later, "acme_staging", "false");
  }

  lemma StandsReadsAsBefore(v: Values, full: Values, urlHost: string)
    requires AllStand(v, full)
    ensures BuildFrom(full, urlHost) == BuildFrom(v, urlHost)
  {
    DefaultReadsAsDefault(v, full, "mode", PROXY);
    DefaultReadsAsDefault(v, full, "listen_addr", "0.0.0.0:443");
    DefaultReadsAsDefault(v, full, "redirect_http", "false");
    DefaultReadsAsDefault(v, full, "domain", "");
    DefaultReadsAsDefault(v, full, "acme_enabled", "false");
    DefaultReadsAsDefault(v, full, "acme_email", "");
    DefaultReadsAsDefault(v, full, "acme_staging", "false");
  }

  /** Overlaying the restore values on any later section reads the same as the section that was saved. */
  lemma RestoreReadsAsBefore(prev: Values, later: Values, urlHost: string)
    ensures BuildFrom(later + Restore(prev), urlHost) == BuildFrom(prev, urlHost)
  {
    RestoreStands(prev, later);
    StandsReadsAsBefore(prev, later + Restore(prev), urlHost);
  }

  /** The configuration after a rollback, whatever happened to the table in between. */
  lemma RolledBackConfig(env: Env, a: App, prev: Values, nonces: string -> string, bindOk: bool)
    requires Registered(env) && AllLoadable(env, a.rows)
    ensures RolledBack(env, a, Restore(prev), nonces, bindOk).0.conf ==
            BuildFrom(prev, env.hostFromURL(PublicURL(env, a.rows)))
  {
    TlsSaveIsPlain(env, nonces, a.rows, Restore(prev));
    RestoreReadsAsBefore(prev, Snapshot(env, a.rows, TLS), env.hostFromURL(PublicURL(env, a.rows)));
  }

  /** The portal is running what its table says, and its last apply succeeded. */
  ghost predicate Settled(env: Env, a: App) {
    AllLoadable(env, a.rows) && a.conf == Build(env, a.rows) && a.held == Apply(FRESH, a.conf, true).0
  }

  /**
   * A rollback that manages to bind puts back the TLS configuration, the listener and the redirect
   * of the state the restore values were taken from - however the table, the configuration and the
   * listeners have changed since - if and only if the certificate host did not move: either tls.domain
   * was set, or the public URL still names the same host.
   */
  lemma RollbackRestoresExactlyWhen(env: Env, before: App, now: App, nonces: string -> string, bindOk: bool, after: App)
    requires Registered(env) && Settled(env, before) && AllLoadable(env, now.rows)
    requires RolledBack(env, now, Restore(Snapshot(env, before.rows, TLS)), nonces, bindOk) == (after, true)
    ensures after.conf == before.conf <==>
            || ReadString(Snapshot(env, before.rows, TLS), "domain", "") != ""
            || env.hostFromURL(PublicURL(env, now.rows)) == env.hostFromURL(PublicURL(env, before.rows))
    ensures after.conf == before.conf ==> after.held == before.held
  {
    var prev := Snapshot(env, before.rows, TLS);
    RolledBackConfig(env, now, prev, nonces, bindOk);
    TlsSaveIsPlain(env, nonces, now.rows, Restore(prev));
    SuccessForgetsHistory(now.held, after.conf, bindOk);
  }

  const REDIRECT_ON: Values := map["redirect_http" := "true"]

  lemma RedirectIsRead(stored: Values, urlHost: string)
    ensures BuildFrom(stored + REDIRECT_ON, urlHost).redirectHTTP
  {
    assert TrimSpace("true") == "true";
  }

  lemma RedirectFormIsKept(env: Env, stored: Values)
    requires Registered(env)
    ensures Merged(env.reg, TLS, stored, Allowed(env.reg, TLS, REDIRECT_ON)) == REDIRECT_ON
  {
    TlsHasNoSecrets(env, "redirect_http");
    assert Allowed(env.reg, TLS, REDIRECT_ON) == REDIRECT_ON;
  }

  /** Switching the redirect on is always armed when the bind works. */
  lemma TurningRedirectOnIsArmed(env: Env, before: App, nonces: string -> string)
    requires Registered(env) && AllLoadable(env, before.rows) && !before.conf.redirectHTTP
    ensures SaveTls(env, before, REDIRECT_ON, nonces, true).0.conf.redirectHTTP
    ensures SaveTls(env, before, REDIRECT_ON, nonces, true).1 == Some(Restore(Snapshot(env, before.rows, TLS)))
  {
    var stored := Snapshot(env, before.rows, TLS);
    RedirectFormIsKept(env, stored);
    TlsSaveIsPlain(env, nonces, before.rows, REDIRECT_ON);
    RedirectIsRead(stored, env.hostFromURL(PublicURL(env, before.rows)));
  }

  /**
   * The whole story: save a risky change, let it go unconfirmed, run the rollback it armed. If the
   * rollback can bind, the portal has the configuration, the listener address and the redirect it had
   * before the save - including for keys that never had a row.
   */
  lemma UnconfirmedSaveIsUndone(env: Env, before: App, submitted: Values, n1: string -> string, bind1: bool,
                                changed: App, restore: Values, n2: string -> string, bind2: bool, after: App)
    requires Registered(env) && Settled(env, before)
    requires SaveTls(env, before, submitted, n1, bind1) == (changed, Some(restore))
    requires RolledBack(env, changed, restore, n2, bind2) == (after, true)
    ensures after.conf == before.conf && after.held == before.held
  {
    var stored := Snapshot(env, before.rows, TLS);
    var merged := Merged(env.reg, TLS, stored, Allowed(env.reg, TLS, submitted));
    TlsSaveIsPlain(env, n1, before.rows, merged);
    RollbackRestoresExactlyWhen(env, before, changed, n2, bind2, after);
  }

  // ----- what a submitted TLS form puts in force -----

  predicate Sets(form: Values, key: string) {
    key in form && form[key] != ""
  }

  predicate SetsTo(form: Values, key: string, value: string) {
    key in form && form[key] == value
  }

  lemma KnownKeyIsAllowed(env: Env, submitted: Values, key: string)
    requires Registered(env) && key in TLS_KEYS
    ensures key in submitted <==> key in Allowed(env.reg, TLS, submitted)
    ensures key in submitted ==> Allowed(env.reg, TLS, submitted)[key] == submitted[key]
  {
  }

  lemma TlsFormIsKept(env: Env, stored: Values, submitted: Values)
    requires Registered(env)
    ensures Merged(env.reg, TLS, stored, Allowed(env.reg, TLS, submitted)) == Allowed(env.reg, TLS, submitted)
  {
    forall key ensures !IsSecret(env.reg, TLS, key) {
      TlsHasNoSecrets(env, key);
    }
  }

  /** The configuration after a save that saved something: the stored section overlaid with the known fields. */
  lemma SavedConfig(env: Env, a: App, submitted: Values, nonces: string -> string, bindOk: bool)
    requires Registered(env) && AllLoadable(env, a.rows) && Allowed(env.reg, TLS, submitted) != map[]
    ensures SaveTls(env, a, submitted, nonces, bindOk).0.conf ==
            BuildFrom(Snapshot(env, a.rows, TLS) + Allowed(env.reg, TLS, submitted),
                      env.hostFromURL(PublicURL(env, a.rows)))
  {
    TlsFormIsKept(env, Snapshot(env, a.rows, TLS), submitted);
    TlsSaveIsPlain(env, nonces, a.rows, Allowed(env.reg, TLS, submitted));
  }

  /** Each text field of the configuration is the submitted one. */
  lemma TextFieldsTakeEffect(v: Values, form: Values, urlHost: string)
    ensures var conf := BuildFrom(v + form, urlHost);
            && (Sets(form, "mode") ==> conf.mode == form["mode"])
            && (Sets(form, "listen_addr") ==> conf.listenAddr == form["listen_addr"])
            && (Sets(form, "domain") ==> conf.domain == form["domain"])
            && (Sets(form, "acme_email") ==> conf.acmeEmail == form["acme_email"])
  {
  }

  /** Each switch of the configuration is the submitted one. */
  lemma SwitchesTakeEffect(v: Values, form: Values, urlHost: string)
    ensures var conf := BuildFrom(v + form, urlHost);
            && (SetsTo(form, "redirect_http", "true") ==> conf.redirectHTTP)
            && (SetsTo(form, "redirect_http", "false") ==> !conf.redirectHTTP)
            && (SetsTo(form, "acme_enabled", "true") ==> conf.acmeEnabled)
            && (SetsTo(form, "acme_enabled", "false") ==> !conf.acmeEnabled)
            && (SetsTo(form, "acme_staging", "true") ==> conf.acmeStaging)
            && (SetsTo(form, "acme_staging", "false") ==> !conf.acmeStaging)
  {
    assert TrimSpace("true") == "true";
    TrimFalse();
  }

  /** A field that is not in the form reads as before. */
  lemma OtherFieldsStay(v: Values, form: Values, urlHost: string)
    ensures var conf, was := BuildFrom(v + form, urlHost), BuildFrom(v, urlHost);
            && ("mode" !in form ==> conf.mode == was.mode)
            && ("listen_addr" !in form ==> conf.listenAddr == was.listenAddr)
            && ("domain" !in form ==> conf.domain == was.domain)
            && ("acme_email" !in form ==> conf.acmeEmail == was.acmeEmail)
            && ("redirect_http" !in form ==> conf.redirectHTTP == was.redirectHTTP)
            && ("acme_enabled" !in form ==> conf.acmeEnabled == was.acmeEnabled)
            && ("acme_staging" !in form ==> conf.acmeStaging == was.acmeStaging)
  {
  }

  /** A portal whose table has no TLS rows is a plain proxy with the address and host an operator expects. */
  lemma NoRowsMeansProxy(urlHost: string)
    ensures BuildFrom(map[], urlHost) == TlsConfig("proxy", "0.0.0.0:443", false, urlHost, false, "", false)
  {
  }

  /** Slashes at the end of the public URL do not matter, and only those go. */
  lemma TrailingSlashesDoNotMatter(s: string)
    ensures TrimSlashes(s + "/") == TrimSlashes(s)
    ensures s != "" && s[|s| - 1] != '/' ==> TrimSlashes(s) == s
  {
    assert (s + "/")[..|s|] == s;
  }

  /** Saving the TLS form of a portal that runs its table puts the form in force, field by field. */
  lemma SavedFormTakesEffect(env: Env, a: App, submitted: Values, nonces: string -> string, bindOk: bool, changed: App)
    requires Registered(env) && AllLoadable(env, a.rows) && a.conf == Build(env, a.rows)
    requires Allowed(env.reg, TLS, submitted) != map[] && SaveTls(env, a, submitted, nonces, bindOk).0 == changed
    ensures changed.conf.mode == if Sets(submitted, "mode") then submitted["mode"]
                                 else if "mode" in submitted then PROXY else a.conf.mode
    ensures changed.conf.listenAddr == if Sets(submitted, "listen_addr") then submitted["listen_addr"]
                                       else if "listen_addr" in submitted then "0.0.0.0:443" else a.conf.listenAddr
    ensures SetsTo(submitted, "redirect_http", "true") ==> changed.conf.redirectHTTP
    ensures SetsTo(submitted, "redirect_http", "false") ==> !changed.conf.redirectHTTP
    ensures "redirect_http" !in submitted ==> changed.conf.redirectHTTP == a.conf.redirectHTTP
    ensures Sets(submitted, "domain") ==> changed.conf.domain == submitted["domain"]
    ensures "domain" !in submitted ==> changed.conf.domain == a.conf.domain
  {
    var v, form := Snapshot(env, a.rows, TLS), Allowed(env.reg, TLS, submitted);
    var host := env.hostFromURL(PublicURL(env, a.rows));
    SavedConfig(env, a, submitted, nonces, bindOk);
    KnownKeyIsAllowed(env, submitted, "mode");
    KnownKeyIsAllowed(env, submitted, "listen_addr");
    KnownKeyIsAllowed(env, submitted, "redirect_http");
    KnownKeyIsAllowed(env, submitted, "domain");
    TextFieldsTakeEffect(v, form, host);
    SwitchesTakeEffect(v, form, host);
    OtherFieldsStay(v, form, host);
  }

}
