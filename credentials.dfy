/**
  checkCredentials and checkValidUUID. The application settings are a map
  from setting name to value; Guid.TryParse, a parser of the .NET runtime,
  is stood for by the set guids of the strings it accepts.
 */
module Credentials {

  const ConfigToken: string := "LOGENTRIES_TOKEN"
  const ConfigAccountKey: string := "LOGENTRIES_ACCOUNT_KEY"
  const ConfigLocation: string := "LOGENTRIES_LOCATION"

  /** The identity fields m_Token, m_Key and m_Location. */
  datatype Destination = Destination(token: string, key: string, location: string)

  /** What checkCredentials returns, and the identity fields it leaves behind. */
  datatype Verdict = Verdict(accepted: bool, dest: Destination)

  /** checkValidUUID: the empty string is rejected before the parser is asked. */
  predicate ValidUuid(guids: iset<string>, s: string) {
    s != "" && s in guids
  }

  /** The setting is present and holds a valid UUID. */
  predicate SettingIsUuid(settings: map<string, string>, name: string, guids: iset<string>) {
    name in settings && ValidUuid(guids, settings[name])
  }

  /** The setting is present and not empty. */
  predicate SettingIsSet(settings: map<string, string>, name: string) {
    name in settings && settings[name] != ""
  }

  /** The identity the chosen mode needs is in place. */
  predicate Usable(httpPut: bool, d: Destination, guids: iset<string>) {
    if httpPut then ValidUuid(guids, d.key) && d.location != ""
    else ValidUuid(guids, d.token)
  }

  /**
    checkCredentials. Token mode: the token, else the LOGENTRIES_TOKEN setting,
    must be a UUID; only the fallback replaces m_Token. HTTP PUT mode: the key
    must be a UUID and the location non-empty, else the LOGENTRIES_ACCOUNT_KEY
    setting must be a UUID (it replaces m_Key even when the location check
    that follows fails) and LOGENTRIES_LOCATION must be set.
   */
  function Check(httpPut: bool, d: Destination, settings: map<string, string>, guids: iset<string>): (v: Verdict)
    ensures v.accepted ==> Usable(httpPut, v.dest, guids)
    ensures Usable(httpPut, d, guids) ==> v == Verdict(true, d)
    ensures !httpPut ==>
      && (v.accepted <==> ValidUuid(guids, d.token) || SettingIsUuid(settings, ConfigToken, guids))
      && v.dest.key == d.key && v.dest.location == d.location
      && (v.dest.token == d.token || (!ValidUuid(guids, d.token) && SettingIsUuid(settings, ConfigToken, guids)
                                      && v.dest.token == settings[ConfigToken]))
    ensures httpPut ==>
      && (v.accepted <==> Usable(true, d, guids)
                          || (SettingIsUuid(settings, ConfigAccountKey, guids) && SettingIsSet(settings, ConfigLocation)))
      && v.dest.token == d.token
      && v.dest.key == (if !Usable(true, d, guids) && SettingIsUuid(settings, ConfigAccountKey, guids)
                        then settings[ConfigAccountKey] else d.key)
      && v.dest.location == (if !Usable(true, d, guids) && SettingIsUuid(settings, ConfigAccountKey, guids)
                                && SettingIsSet(settings, ConfigLocation)
                             then settings[ConfigLocation] else d.location)
  {
    if !httpPut then
      if ValidUuid(guids, d.token) then Verdict(true, d)
      else if SettingIsUuid(settings, ConfigToken, guids) then Verdict(true, d.(token := settings[ConfigToken]))
      else Verdict(false, d)
    else if d.key != "" && ValidUuid(guids, d.key) && d.location != "" then Verdict(true, d)
    else if SettingIsUuid(settings, ConfigAccountKey, guids) then
      var withKey := d.(key := settings[ConfigAccountKey]);
      if SettingIsSet(settings, ConfigLocation) then Verdict(true, withKey.(location := settings[ConfigLocation]))
      else Verdict(false, withKey)
    else Verdict(false, d)
  }

  /** checkValidUUID("") is false whatever the parser says. */
  lemma EmptyIsNeverValid(guids: iset<string>)
    ensures !ValidUuid(guids, "")
  {
  }

  /** In token mode a second check returns the same verdict and changes nothing. */
  lemma TokenCheckIdempotent(d: Destination, settings: map<string, string>, guids: iset<string>)
    ensures var v := Check(false, d, settings, guids);
            Check(false, v.dest, settings, guids) == v
  {
  }

  /**
    In HTTP PUT mode the check can reject and still leave usable fields
    behind: an explicit location with an invalid key, and a valid
    LOGENTRIES_ACCOUNT_KEY but no LOGENTRIES_LOCATION. The next check then accepts.
   */
  lemma HttpRecheckAccepts(d: Destination, settings: map<string, string>, guids: iset<string>)
    requires !ValidUuid(guids, d.key) && d.location != ""
    requires SettingIsUuid(settings, ConfigAccountKey, guids) && !SettingIsSet(settings, ConfigLocation)
    ensures var v := Check(true, d, settings, guids);
            !v.accepted && Usable(true, v.dest, guids) && Check(true, v.dest, settings, guids).accepted
  {
  }

  /** Whatever the mode, the verdict and the fields are settled after two checks. */
  lemma CheckSettles(httpPut: bool, d: Destination, settings: map<string, string>, guids: iset<string>)
    ensures var v2 := Check(httpPut, Check(httpPut, d, settings, guids).dest, settings, guids);
            Check(httpPut, v2.dest, settings, guids) == v2
  {
  }
}
