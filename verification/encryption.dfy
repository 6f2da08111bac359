/** Voice encryption-mode negotiation (`obsidian.bedrock.crypto.EncryptionMode`
    and `DefaultEncryptionModes`). The box implementations are foreign NaCl
    code; a mode is represented by the implementation class it names. */
module EncryptionMode {
  import opened Wrappers

  datatype Impl =
    | XSalsa20Poly1305Lite
    | XSalsa20Poly1305Suffix
    | XSalsa20Poly1305
    | Plain

  /** `DefaultEncryptionModes.encryptionModes`: mode name to factory. A
      lookup builds a new instance, and the factory is represented by the
      class it instantiates. The instances' own state (the lite mode's
      nonce counter, which starts at 0x80000000, and the scratch buffers)
      is outside this model. */
  const ENCRYPTION_MODES: map<string, Impl> := map[
    "xsalsa20_poly1305_lite" := XSalsa20Poly1305Lite,
    "xsalsa20_poly1305_suffix" := XSalsa20Poly1305Suffix,
    "xsalsa20_poly1305" := XSalsa20Poly1305,
    "plain" := Plain
  ]

  predicate Supported(mode: string)
  {
    mode in ENCRYPTION_MODES
  }

  /** Exactly four names are supported, each with its own implementation. */
  lemma SupportedModes()
    ensures ENCRYPTION_MODES.Keys ==
              {"xsalsa20_poly1305_lite", "xsalsa20_poly1305_suffix", "xsalsa20_poly1305", "plain"}
    ensures forall a, b :: a in ENCRYPTION_MODES && b in ENCRYPTION_MODES && a != b ==>
              ENCRYPTION_MODES[a] != ENCRYPTION_MODES[b]
  {
  }

  /** `EncryptionMode[mode]`: a new implementation for a supported name, else null. */
  function Get(mode: string): (r: Option<Impl>)
    ensures r.Some? <==> Supported(mode)
    ensures r.Some? ==> r.value == ENCRYPTION_MODES[mode]
  {
    if mode in ENCRYPTION_MODES then Some(ENCRYPTION_MODES[mode]) else None
  }

  /** `select(modes)`: the first offered name that is supported; an
      `UnsupportedEncryptionModeException` when there is none. */
  function Select(modes: seq<string>): (r: Result<string, Failure>)
    ensures r.Ok? <==> exists i :: 0 <= i < |modes| && Supported(modes[i])
    ensures r.Err? ==> r.error == UnsupportedEncryptionMode
    ensures r.Ok? ==> exists i :: 0 <= i < |modes| && modes[i] == r.value && Supported(r.value) &&
                        forall j :: 0 <= j < i ==> !Supported(modes[j])
  {
    if modes == [] then Err(UnsupportedEncryptionMode)
    else if Supported(modes[0]) then Ok(modes[0])
    else
      assert forall i :: 1 <= i < |modes| ==> modes[i] == modes[1..][i - 1];
      Select(modes[1..])
  }

  /** The selected name is both offered and supported, and Discord's
      preference order is respected: no supported name precedes it. */
  lemma SelectedIsOfferedAndSupported(modes: seq<string>)
    requires Select(modes).Ok?
    ensures Select(modes).value in modes && Get(Select(modes).value).Some?
  {
  }

  /** The first supported name wins, whatever follows it. */
  lemma SelectPrefersEarlier(unsupported: seq<string>, mode: string, rest: seq<string>)
    requires forall i :: 0 <= i < |unsupported| ==> !Supported(unsupported[i])
    requires Supported(mode)
    ensures Select(unsupported + [mode] + rest) == Ok(mode)
  {
    var all := unsupported + [mode] + rest;
    assert all[|unsupported|] == mode;
  }
}
