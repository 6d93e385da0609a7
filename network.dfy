/**
 * Where a request comes from: `getClientIP` (the header fallback chain) and
 * `getLocation` (the origin label stored with each pig). The geo database
 * (`geoip.lookup`) is an oracle passed in as a function.
 */
module Network {
  import opened Wrappers
  import Text

  /** The request fields `getClientIP` reads; `None` is an absent header or address. */
  datatype Headers = Headers(
    forwardedFor: Option<string>,     // x-forwarded-for
    realIp: Option<string>,           // x-real-ip
    connectionRemote: Option<string>, // req.connection.remoteAddress
    socketRemote: Option<string>)     // req.socket.remoteAddress

  const DefaultIp: string := "127.0.0.1"

  /** A JavaScript string that is truthy: present and not empty. */
  predicate Truthy(o: Option<string>) {
    o.Some? && o.value != ""
  }

  /** `x-forwarded-for?.split(',')[0]`, untrimmed; `None` when the header is absent. */
  function ForwardedPiece(h: Headers): Option<string> {
    match h.forwardedFor
    case None => None
    case Some(v) => Some(Text.FirstPiece(v, ','))
  }

  /** `getClientIP`: the first truthy candidate of the chain, else `127.0.0.1`. */
  function ClientIp(h: Headers): (ip: string)
    ensures ip != ""
    ensures Truthy(ForwardedPiece(h)) ==> ip == ForwardedPiece(h).value
    ensures !Truthy(ForwardedPiece(h)) && Truthy(h.realIp) ==> ip == h.realIp.value
    ensures !Truthy(ForwardedPiece(h)) && !Truthy(h.realIp) && Truthy(h.connectionRemote) ==>
              ip == h.connectionRemote.value
    ensures !Truthy(ForwardedPiece(h)) && !Truthy(h.realIp) && !Truthy(h.connectionRemote) ==>
              ip == (if Truthy(h.socketRemote) then h.socketRemote.value else DefaultIp)
  {
    var piece := ForwardedPiece(h);
    if Truthy(piece) then piece.value
    else if Truthy(h.realIp) then h.realIp.value
    else if Truthy(h.connectionRemote) then h.connectionRemote.value
    else if Truthy(h.socketRemote) then h.socketRemote.value
    else DefaultIp
  }

  /** An address taken from `x-forwarded-for` is its first comma-separated piece: it holds no comma. */
  lemma ForwardedIpHasNoComma(h: Headers)
    requires Truthy(ForwardedPiece(h))
    ensures ',' !in ClientIp(h)
    ensures h.forwardedFor.value[..|ClientIp(h)|] == ClientIp(h)
  {
    Text.FirstPieceSpec(h.forwardedFor.value, ',');
  }

  /** A forwarded-for header whose first piece is non-empty decides the address, whatever else is sent. */
  lemma ForwardedForWins(h: Headers, realIp: Option<string>, conn: Option<string>, sock: Option<string>)
    requires Truthy(ForwardedPiece(h))
    ensures ClientIp(h.(realIp := realIp, connectionRemote := conn, socketRemote := sock)) == ClientIp(h)
  {
  }

  /** What `geoip.lookup` yields: the country code (`''` when absent) and a city if it is a string. */
  datatype GeoRecord = GeoRecord(country: string, city: Option<string>)

  const LocalLabel: string := "本地"
  const UnknownLabel: string := "未知地区"

  /** `countryMap`: Chinese display names of 27 country codes. */
  const CountryNames: map<string, string> := map[
    "CN" := "中国", "US" := "美国", "GB" := "英国", "JP" := "日本", "KR" := "韩国",
    "FR" := "法国", "DE" := "德国", "CA" := "加拿大", "AU" := "澳大利亚", "IN" := "印度",
    "BR" := "巴西", "RU" := "俄罗斯", "IT" := "意大利", "ES" := "西班牙", "MX" := "墨西哥",
    "ID" := "印度尼西亚", "NL" := "荷兰", "SA" := "沙特阿拉伯", "TR" := "土耳其", "CH" := "瑞士",
    "TW" := "中国台湾", "HK" := "中国香港", "SG" := "新加坡", "MY" := "马来西亚", "TH" := "泰国",
    "VN" := "越南", "PH" := "菲律宾"]

  /** Loopback and the two private prefixes the source recognises. */
  predicate IsLocal(ip: string) {
    ip == "127.0.0.1" || ip == "::1" || Text.StartsWith(ip, "192.168.") || Text.StartsWith(ip, "10.")
  }

  /** `countryMap[code] || code`. */
  function CountryName(code: string): string {
    if code in CountryNames then CountryNames[code] else code
  }

  predicate HasCity(g: GeoRecord) {
    g.city.Some? && Text.Trim(g.city.value) != ""
  }

  /** `getLocation`: local prefixes, then the city, then the country name, then "unknown". */
  function Location(ip: string, lookup: string -> Option<GeoRecord>): (origin: string)
    ensures origin != ""
    ensures IsLocal(ip) ==> origin == LocalLabel
    ensures !IsLocal(ip) && (lookup(ip).None? || lookup(ip).value.country == "") ==> origin == UnknownLabel
    ensures !IsLocal(ip) && lookup(ip).Some? && lookup(ip).value.country != "" ==>
              origin == if HasCity(lookup(ip).value) then Text.Trim(lookup(ip).value.city.value)
                       else CountryName(lookup(ip).value.country)
  {
    if IsLocal(ip) then LocalLabel
    else match lookup(ip)
      case None => UnknownLabel
      case Some(g) =>
        if g.country == "" then UnknownLabel
        else if HasCity(g) then Text.Trim(g.city.value)
        else CountryName(g.country)
  }

  /** Local addresses never reach the geo database: any two oracles agree on them. */
  lemma LocalIgnoresOracle(ip: string, f: string -> Option<GeoRecord>, g: string -> Option<GeoRecord>)
    requires IsLocal(ip)
    ensures Location(ip, f) == Location(ip, g)
  {
  }

  /** A mapped country code without a city gives its Chinese name; an unmapped one is kept as is. */
  lemma CountryFallback(code: string)
    requires code != ""
    ensures code in CountryNames ==> CountryName(code) == CountryNames[code] && CountryName(code) != code
    ensures code !in CountryNames ==> CountryName(code) == code
  {
  }
}
