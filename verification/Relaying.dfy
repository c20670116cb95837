/** Which packets an EGTS destination gets: shouldRelay (gateway/server/relay.go). */
module Relaying {
  import opened Bytes
  import S = Subrecords
  import opened Services
  import opened Packets

  datatype Verdict = NotData | CredentialsInData | Forward(yes: bool)

  predicate AuthPair(s: ServiceRecord) {
    s.sst == SERVICE_AUTH && s.rst == SERVICE_AUTH
  }

  /** Something beside authorization and acknowledgements. */
  predicate CarriesData(s: ServiceRecord) {
    && !AuthPair(s)
    && (s.rd == [] || exists i :: 0 <= i < |s.rd| && s.rd[i].srt != S.RECORD_RESPONSE)
  }

  predicate CarriesCredentials(s: ServiceRecord) {
    exists i :: 0 <= i < |s.rd| && s.rd[i].srt == S.AUTH_INFO
  }

  predicate HasRelayData(ss: Frame) {
    ss == [] || exists i :: 0 <= i < |ss| && CarriesData(ss[i])
  }

  predicate HasCredentials(ss: Frame) {
    exists i :: 0 <= i < |ss| && CarriesCredentials(ss[i])
  }

  function ShouldRelay(p: Packet): Verdict
    requires p.pt == PT_APPDATA ==> p.sfrd.AppData?
  {
    if p.pt != PT_APPDATA then NotData
    else if HasRelayData(p.sfrd.services) && HasCredentials(p.sfrd.services) then CredentialsInData
    else Forward(HasRelayData(p.sfrd.services))
  }

  method Decide(p: Packet) returns (v: Verdict)
    requires p.pt == PT_APPDATA ==> p.sfrd.AppData?
    ensures v == ShouldRelay(p)
  {
    if p.pt != PT_APPDATA {
      return NotData;
    }
    var services := p.sfrd.services;
    var hasData := |services| == 0;
    var hasCredentials := false;
    for n := 0 to |services|
      invariant hasData <==> services == [] || exists i :: 0 <= i < n && CarriesData(services[i])
      invariant hasCredentials <==> exists i :: 0 <= i < n && CarriesCredentials(services[i])
    {
      var service := services[n];
      ghost var had, hadCredentials := hasData, hasCredentials;
      if |service.rd| == 0 && !AuthPair(service) {
        hasData := true;
      }
      for k := 0 to |service.rd|
        invariant hasData <==> had || (!AuthPair(service) && (service.rd == [] || exists i :: 0 <= i < k && service.rd[i].srt != S.RECORD_RESPONSE))
        invariant hasCredentials <==> hadCredentials || exists i :: 0 <= i < k && service.rd[i].srt == S.AUTH_INFO
      {
        if service.rd[k].srt == S.AUTH_INFO {
          hasCredentials := true;
        }
        if !AuthPair(service) && service.rd[k].srt != S.RECORD_RESPONSE {
          hasData := true;
        }
      }
    }
    if hasData && hasCredentials {
      return CredentialsInData;
    }
    return Forward(hasData);
  }
}
