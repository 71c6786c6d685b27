/**
 * The settings table and the round trip a settings page makes through it
 * (portal/internal/settings/settings.go, portal/admin_settings.go).
 */
module Settings {
  import opened Common
  import opened Secrets

  type Values = map<string, string>

  /** The setting table: stored values by section and key. */
  type Rows = map<string, Values>

  datatype Def = Def(default: string, secret: bool)

  /** The setting registry, by section and key. */
  type Registry = map<string, map<string, Def>>

  function Keys(reg: Registry, section: string): map<string, Def> {
    if section in reg then reg[section] else map[]
  }

  function SectionRows(rows: Rows, section: string): Values {
    if section in rows then rows[section] else map[]
  }

  /** isSecretSetting */
  predicate IsSecret(reg: Registry, section: string, key: string) {
    key in Keys(reg, section) && Keys(reg, section)[key].secret
  }

  // ----- what the operations compute -----

  function Reveal(reg: Registry, ring: Keyring, section: string, key: string, stored: string): Result<string> {
    if IsSecret(reg, section, key) then Decrypt(ring, stored) else Ok(stored)
  }

  function Conceal(reg: Registry, ring: Keyring, nonces: string -> string, section: string, key: string,
                   value: string): string {
    if IsSecret(reg, section, key) then Encrypt(ring, nonces(key), value) else value
  }

  predicate Loadable(reg: Registry, ring: Keyring, section: string, stored: Values) {
    forall k :: k in stored ==> Reveal(reg, ring, section, k, stored[k]).Ok?
  }

  function Revealed(reg: Registry, ring: Keyring, section: string, stored: Values): Values
    requires Loadable(reg, ring, section, stored)
  {
    map k | k in stored :: Reveal(reg, ring, section, k, stored[k]).value
  }

  function Concealed(reg: Registry, ring: Keyring, nonces: string -> string, section: string, values: Values): Values {
    map k | k in values :: Conceal(reg, ring, nonces, section, k, values[k])
  }

  /** Save: an upsert; keys that are not mentioned stay. */
  function Saved(reg: Registry, ring: Keyring, nonces: string -> string, rows: Rows, section: string,
                 values: Values): Rows {
    if values == map[] then rows
    else rows[section := SectionRows(rows, section) + Concealed(reg, ring, nonces, section, values)]
  }

  /** Defaults for the keys that have no row. */
  function Filled(reg: Registry, section: string, values: Values): Values {
    (map k | k in Keys(reg, section) :: Keys(reg, section)[k].default) + values
  }

  function Visible(reg: Registry, section: string, values: Values): Values {
    map k | k in values && !IsSecret(reg, section, k) :: values[k]
  }

  /** ApplySecretUpdates: a blank secret means unchanged. */
  function Merged(reg: Registry, section: string, stored: Values, submitted: Values): Values {
    map k | k in submitted ::
      if IsSecret(reg, section, k) && TrimSpace(submitted[k]) == "" && k in stored then stored[k] else submitted[k]
  }

  /** Keys the section does not define are dropped. */
  function Allowed(reg: Registry, section: string, submitted: Values): Values {
    map k | k in submitted && k in Keys(reg, section) :: submitted[k]
  }

  // ----- the store -----

  class Store {
    const reg: Registry
    const ring: Keyring
    var rows: Rows

    constructor (reg: Registry, ring: Keyring)
      ensures this.reg == reg && this.ring == ring && rows == map[]
    {
      this.reg := reg;
      this.ring := ring;
      rows := map[];
    }

    /** One unreadable secret fails the whole load. */
    method LoadSection(section: string) returns (r: Option<Values>)
      ensures r.Some? == Loadable(reg, ring, section, SectionRows(rows, section))
      ensures r.Some? ==> r.value == Revealed(reg, ring, section, SectionRows(rows, section))
    {
      var stored := SectionRows(rows, section);
      var out: Values := map[];
      var todo := stored.Keys;
      while todo != {}
        invariant todo <= stored.Keys && out.Keys == stored.Keys - todo
        invariant forall k :: k in out ==> Reveal(reg, ring, section, k, stored[k]) == Ok(out[k])
        decreases todo
      {
        var k :| k in todo;
        var v := stored[k];
        if IsSecret(reg, section, k) {
          var plain := Decrypt(ring, v);
          if !plain.Ok? {
            return None;
          }
          v := plain.value;
        }
        out := out[k := v];
        todo := todo - {k};
      }
      r := Some(out);
    }

    method Save(section: string, values: Values, nonces: string -> string)
      modifies this
      ensures rows == Saved(reg, ring, nonces, old(rows), section, values)
    {
      var batch: Values := map[];
      var todo := values.Keys;
      while todo != {}
        invariant todo <= values.Keys && batch.Keys == values.Keys - todo && rows == old(rows)
        invariant forall k :: k in batch ==> batch[k] == Conceal(reg, ring, nonces, section, k, values[k])
        decreases todo
      {
        var k :| k in todo;
        var v := values[k];
        if IsSecret(reg, section, k) {
          v := Encrypt(ring, nonces(k), v);
        }
        batch := batch[k := v];
        todo := todo - {k};
      }
      if batch == map[] {
        assert values.Keys == {};
        return;
      }
      assert batch == Concealed(reg, ring, nonces, section, values);
      rows := rows[section := SectionRows(rows, section) + batch];
    }

    method Redact(section: string, values: Values) returns (fields: Values, present: map<string, bool>)
      ensures fields == Visible(reg, section, values)
      ensures present == Present(reg, section, values)
    {
      fields, present := map[], map[];
      var todo := values.Keys;
      while todo != {}
        invariant todo <= values.Keys
        invariant fields == map k | k in values && k !in todo && !IsSecret(reg, section, k) :: values[k]
        invariant present == map k | k in values && k !in todo && IsSecret(reg, section, k) :: values[k] != ""
        decreases todo
      {
        var k :| k in todo;
        todo := todo - {k};
        if IsSecret(reg, section, k) {
          present := present[k := values[k] != ""];
          continue;
        }
        fields := fields[k := values[k]];
      }
    }

    method ApplySecretUpdates(section: string, stored: Values, submitted: Values) returns (out: Values)
      ensures out == Merged(reg, section, stored, submitted)
    {
      out := map[];
      var todo := submitted.Keys;
      while todo != {}
        invariant todo <= submitted.Keys && out.Keys == submitted.Keys - todo
        invariant forall k :: k in out ==> out[k] == Merged(reg, section, stored, submitted)[k]
        decreases todo
      {
        var k :| k in todo;
        todo := todo - {k};
        if IsSecret(reg, section, k) && TrimSpace(submitted[k]) == "" {
          if k in stored {
            out := out[k := stored[k]];
            continue;
          }
        }
        out := out[k := submitted[k]];
      }
    }
  }

  // ----- the round trip of a settings page -----

  /** A form sent back as it was rendered: visible fields unchanged, secrets left blank or left out. */
  ghost predicate Resubmits(reg: Registry, section: string, shown: Values, submitted: Values) {
    forall k :: k in submitted && k in Keys(reg, section) ==>
      if IsSecret(reg, section, k) then TrimSpace(submitted[k]) == ""
      else k in shown && submitted[k] == shown[k]
  }

  ghost predicate NoPrefixedSecret(reg: Registry, section: string, values: Values) {
    forall k :: k in values && IsSecret(reg, section, k) ==> !HasPrefix(values[k], PREFIX)
  }

  /** A secret that has no row yet was sent as its default, which for every registered secret is empty. */
  ghost predicate BlanksMatchDefaults(reg: Registry, section: string, stored: Values, submitted: Values) {
    forall k :: k in submitted && IsSecret(reg, section, k) && k !in stored ==>
      submitted[k] == Keys(reg, section)[k].default
  }

  lemma {:induction false} TrimLeftKeeps(s: string, i: nat)
    requires i < |s| && !IsSpace(s[i])
    ensures TrimLeft(s) != "" && exists j :: 0 <= j < |TrimLeft(s)| && TrimLeft(s)[j] == s[i]
  {
    if IsSpace(s[0]) {
      TrimLeftKeeps(s[1..], i - 1);
    }
  }

  lemma {:induction false} TrimRightKeeps(s: string, i: nat)
    requires i < |s| && !IsSpace(s[i])
    ensures TrimRight(s) != ""
  {
    if IsSpace(s[|s| - 1]) {
      TrimRightKeeps(s[..|s| - 1], i);
    }
  }

  /** A blank value never looks encrypted. */
  lemma BlankIsNotPrefixed(s: string)
    requires TrimSpace(s) == ""
    ensures !HasPrefix(s, PREFIX)
  {
    if HasPrefix(s, PREFIX) {
      assert s[0] == 'e';
      TrimLeftKeeps(s, 0);
      var j :| 0 <= j < |TrimLeft(s)| && TrimLeft(s)[j] == s[0];
      TrimRightKeeps(TrimLeft(s), j);
    }
  }

  lemma MergedHasNoPrefix(reg: Registry, section: string, stored: Values, submitted: Values, shown: Values)
    requires NoPrefixedSecret(reg, section, stored) && Resubmits(reg, section, shown, submitted)
    ensures NoPrefixedSecret(reg, section, Merged(reg, section, stored, Allowed(reg, section, submitted)))
  {
    var merged := Merged(reg, section, stored, Allowed(reg, section, submitted));
    forall k | k in merged && IsSecret(reg, section, k) ensures !HasPrefix(merged[k], PREFIX) {
      if k !in stored {
        BlankIsNotPrefixed(submitted[k]);
      }
    }
  }

  /** Reloading after a save gives the loaded values overlaid with the saved ones. */
  lemma SaveThenLoad(reg: Registry, ring: Keyring, nonces: string -> string, rows: Rows, section: string,
                     values: Values)
    requires Lawful(ring.aead) && Loadable(reg, ring, section, SectionRows(rows, section))
    requires NoPrefixedSecret(reg, section, values)
    ensures var stored' := SectionRows(Saved(reg, ring, nonces, rows, section, values), section);
            && Loadable(reg, ring, section, stored')
            && Revealed(reg, ring, section, stored') ==
               Revealed(reg, ring, section, SectionRows(rows, section)) + values
  {
    var stored := SectionRows(rows, section);
    var stored' := SectionRows(Saved(reg, ring, nonces, rows, section, values), section);
    forall k | k in stored'
      ensures k in values ==> Reveal(reg, ring, section, k, stored'[k]) == Ok(values[k])
      ensures k !in values ==> k in stored && stored'[k] == stored[k]
    {
      if k in values && IsSecret(reg, section, k) {
        DecryptUndoesEncrypt(ring, nonces(k), values[k]);
      }
    }
  }

  /** The values of a section once a form has been merged, saved and read back. */
  function AfterSubmit(reg: Registry, ring: Keyring, nonces: string -> string, rows: Rows, section: string,
                       submitted: Values): Rows
    requires Loadable(reg, ring, section, SectionRows(rows, section))
  {
    var stored := Revealed(reg, ring, section, SectionRows(rows, section));
    Saved(reg, ring, nonces, rows, section, Merged(reg, section, stored, Allowed(reg, section, submitted)))
  }

  /** The merged form differs from what the page already showed only at blank secrets that had no row. */
  lemma MergedMatchesFilled(reg: Registry, section: string, stored: Values, submitted: Values, k: string)
    requires Resubmits(reg, section, Visible(reg, section, Filled(reg, section, stored)), submitted)
    requires k in Allowed(reg, section, submitted)
    ensures var merged := Merged(reg, section, stored, Allowed(reg, section, submitted));
            merged[k] ==
            if IsSecret(reg, section, k) && k !in stored then submitted[k] else Filled(reg, section, stored)[k]
  {
  }

  /**
   * Opening a settings page and sending it back unchanged changes nothing: load, fill defaults,
   * redact, resubmit with blank secrets, merge, save and reload ends at the same filled values -
   * with or without a key, over plaintext and encrypted rows alike - if and only if no secret that
   * had no row was sent as anything but its default.
   */
  lemma UntouchedFormIsIdentity(reg: Registry, ring: Keyring, nonces: string -> string, rows: Rows, section: string,
                                submitted: Values)
    requires Lawful(ring.aead) && Loadable(reg, ring, section, SectionRows(rows, section))
    requires NoPrefixedSecret(reg, section, Revealed(reg, ring, section, SectionRows(rows, section)))
    requires var stored := Revealed(reg, ring, section, SectionRows(rows, section));
             Resubmits(reg, section, Visible(reg, section, Filled(reg, section, stored)), submitted)
    ensures Loadable(reg, ring, section, SectionRows(AfterSubmit(reg, ring, nonces, rows, section, submitted), section))
    ensures var stored := Revealed(reg, ring, section, SectionRows(rows, section));
            var rows' := AfterSubmit(reg, ring, nonces, rows, section, submitted);
            var stored' := Revealed(reg, ring, section, SectionRows(rows', section));
            Filled(reg, section, stored') == Filled(reg, section, stored) <==>
            BlanksMatchDefaults(reg, section, stored, submitted)
  {
    var stored := Revealed(reg, ring, section, SectionRows(rows, section));
    var allowed := Allowed(reg, section, submitted);
    var merged := Merged(reg, section, stored, allowed);
    MergedHasNoPrefix(reg, section, stored, submitted, Visible(reg, section, Filled(reg, section, stored)));
    SaveThenLoad(reg, ring, nonces, rows, section, merged);
    OverlayKeepsFilled(reg, section, stored, submitted);
  }

  lemma OverlayKeepsFilled(reg: Registry, section: string, stored: Values, submitted: Values)
    requires Resubmits(reg, section, Visible(reg, section, Filled(reg, section, stored)), submitted)
    ensures var merged := Merged(reg, section, stored, Allowed(reg, section, submitted));
            Filled(reg, section, stored + merged) == Filled(reg, section, stored) <==>
            BlanksMatchDefaults(reg, section, stored, submitted)
  {
    var merged := Merged(reg, section, stored, Allowed(reg, section, submitted));
    var was, now := Filled(reg, section, stored), Filled(reg, section, stored + merged);
    assert now.Keys == was.Keys;
    if BlanksMatchDefaults(reg, section, stored, submitted) {
      forall k | k in was ensures now[k] == was[k] {
        OverlayAt(reg, section, stored, submitted, k);
      }
    } else {
      var k :| k in submitted && IsSecret(reg, section, k) && k !in stored
        && submitted[k] != Keys(reg, section)[k].default;
      OverlayAt(reg, section, stored, submitted, k);
      assert now[k] != was[k];
    }
  }

  lemma OverlayAt(reg: Registry, section: string, stored: Values, submitted: Values, k: string)
    requires Resubmits(reg, section, Visible(reg, section, Filled(reg, section, stored)), submitted)
    requires k in Filled(reg, section, stored)
    ensures var merged := Merged(reg, section, stored, Allowed(reg, section, submitted));
            Filled(reg, section, stored + merged)[k] ==
            if k in submitted && IsSecret(reg, section, k) && k !in stored then submitted[k]
            else Filled(reg, section, stored)[k]
  {
    if k in Allowed(reg, section, submitted) {
      MergedMatchesFilled(reg, section, stored, submitted, k);
    }
  }

  /** Saving one section leaves every other section's rows alone. */
  lemma SaveKeepsOtherSections(reg: Registry, ring: Keyring, nonces: string -> string, rows: Rows, section: string,
                               values: Values, other: string)
    requires other != section
    ensures SectionRows(Saved(reg, ring, nonces, rows, section, values), other) == SectionRows(rows, other)
  {
  }

  // ----- credentials at rest, and what a form can do -----

  /** After a save under a key every secret of the form that is not empty is stored sealed. */
  lemma SavedSecretIsSealed(reg: Registry, ring: Keyring, nonces: string -> string, rows: Rows, section: string,
                            values: Values, k: string)
    requires ring.key.Some? && k in values && IsSecret(reg, section, k) && values[k] != ""
    ensures k in SectionRows(Saved(reg, ring, nonces, rows, section, values), section)
    ensures HasPrefix(SectionRows(Saved(reg, ring, nonces, rows, section, values), section)[k], PREFIX)
  {
    StoredSecretNeedsTheKey(ring, nonces(k), values[k]);
  }

  /** So the section cannot be loaded without the key. */
  lemma SealedSectionNeedsTheKey(reg: Registry, ring: Keyring, nonces: string -> string, rows: Rows, section: string,
                                 values: Values, k: string)
    requires ring.key.Some? && k in values && IsSecret(reg, section, k) && values[k] != ""
    ensures !Loadable(reg, Keyring(ring.aead, None), section,
                      SectionRows(Saved(reg, ring, nonces, rows, section, values), section))
  {
    SavedSecretIsSealed(reg, ring, nonces, rows, section, values, k);
    StoredSecretNeedsTheKey(ring, nonces(k), values[k]);
    var stored := SectionRows(Saved(reg, ring, nonces, rows, section, values), section);
    assert Reveal(reg, Keyring(ring.aead, None), section, k, stored[k]) == ErrNoKey;
  }

  /** The two sections differ at most in what their secrets are. */
  predicate SameButSecrets(reg: Registry, section: string, a: Values, b: Values) {
    && a.Keys == b.Keys
    && forall k :: k in a ==> if IsSecret(reg, section, k) then a[k] != "" <==> b[k] != "" else a[k] == b[k]
  }

  function Present(reg: Registry, section: string, values: Values): map<string, bool> {
    map k | k in values && IsSecret(reg, section, k) :: values[k] != ""
  }

  /** A settings page does not depend on what a stored credential is, only on whether there is one. */
  lemma PageRevealsNoSecret(reg: Registry, section: string, a: Values, b: Values)
    requires SameButSecrets(reg, section, a, b)
    ensures Visible(reg, section, a) == Visible(reg, section, b) && Present(reg, section, a) == Present(reg, section, b)
    ensures forall k :: k in a && !IsSecret(reg, section, k) ==>
              k in Visible(reg, section, a) && Visible(reg, section, a)[k] == a[k]
  {
  }

  /**
   * What a submitted form does, read back: a blank secret keeps the old one if there is one, every other
   * known field has the submitted value, fields not submitted stay, and unknown keys leave no trace.
   */
  lemma SubmittedFormTakesEffect(reg: Registry, ring: Keyring, nonces: string -> string, rows: Rows, section: string,
                                 submitted: Values, k: string)
    requires Lawful(ring.aead) && Loadable(reg, ring, section, SectionRows(rows, section))
    requires var stored := Revealed(reg, ring, section, SectionRows(rows, section));
             NoPrefixedSecret(reg, section, Merged(reg, section, stored, Allowed(reg, section, submitted)))
    ensures var rows' := AfterSubmit(reg, ring, nonces, rows, section, submitted);
            Loadable(reg, ring, section, SectionRows(rows', section))
    ensures var was := Revealed(reg, ring, section, SectionRows(rows, section));
            var rows' := AfterSubmit(reg, ring, nonces, rows, section, submitted);
            var now := Revealed(reg, ring, section, SectionRows(rows', section));
            var known := k in submitted && k in Keys(reg, section);
            && (known && TrimSpace(submitted[k]) != "" ==> k in now && now[k] == submitted[k])
            && (known && !IsSecret(reg, section, k) ==> k in now && now[k] == submitted[k])
            && (known && IsSecret(reg, section, k) && TrimSpace(submitted[k]) == "" && k in was ==>
                  k in now && now[k] == was[k])
            && (!known ==> (k in now <==> k in was) && (k in was ==> now[k] == was[k]))
  {
    var stored := Revealed(reg, ring, section, SectionRows(rows, section));
    SaveThenLoad(reg, ring, nonces, rows, section, Merged(reg, section, stored, Allowed(reg, section, submitted)));
  }

  /** A page shows what is stored, and the default for what is not. */
  lemma PageShowsStoredOrDefault(reg: Registry, section: string, values: Values, k: string)
    requires k in Keys(reg, section) && !IsSecret(reg, section, k)
    ensures k in Visible(reg, section, Filled(reg, section, values))
    ensures Visible(reg, section, Filled(reg, section, values))[k] ==
            if k in values then values[k] else Keys(reg, section)[k].default
  {
  }

}
