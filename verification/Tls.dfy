/** TLS handshake facts shared by the HTTPS and QUIC merges. */
module Tls {
  import opened Wrappers

  datatype TlsVersion = Tls10 | Tls11 | Tls12 | Tls13

  datatype TlsInfo = TlsInfo(
    version: Option<TlsVersion>, sni: Option<string>, alpn: seq<string>, cipherSuite: Option<nat>)

  const PARTIAL_SNI_MARKER := "[PARTIAL]"

  /** A server name is marked as partial by its suffix. */
  predicate IsPartialSni(sni: string) {
    |sni| >= |PARTIAL_SNI_MARKER| && sni[|sni| - |PARTIAL_SNI_MARKER|..] == PARTIAL_SNI_MARKER
  }

  predicate HasPartialSni(sni: Option<string>) { sni.Some? && IsPartialSni(sni.value) }
  predicate HasCompleteSni(sni: Option<string>) { sni.Some? && !IsPartialSni(sni.value) }

  function SniOf(tls: Option<TlsInfo>): Option<string> {
    if tls.Some? then tls.value.sni else None
  }

  /** No name, a partial name, a complete one. */
  function SniRank(sni: Option<string>): nat {
    if sni.None? then 0 else if IsPartialSni(sni.value) then 1 else 2
  }
}
