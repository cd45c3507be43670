/**
 * The application delegate's own logic: routing a push payload's link into
 * the `temp_link` slot of the key-value store, persisting the push token,
 * and relaying attribution ("conversion") data. SDK calls are left out; the
 * store and the notification centre are modelled as state.
 */
module AppDelegate {
  import opened Common

  // ---------------------------------------------------------------------
  // Payloads: dictionaries with hashable keys and property-list values

  /** The hashable keys payloads use: strings, and numbers for completeness. */
  datatype Key = StringKey(name: string) | IntKey(number: int)

  /** The property-list values a payload can hold. */
  datatype Value =
    | Text(text: string)
    | Number(number: int)
    | Flag(flag: bool)
    | Dictionary(entries: map<Key, Value>)
    | List(items: seq<Value>)

  type Payload = map<Key, Value>

  /** The string stored under `key`, if the key is present and holds a string. */
  function StringAt(m: Payload, key: string): (r: Option<string>)
    ensures r.Some? <==> StringKey(key) in m && m[StringKey(key)].Text?
    ensures r.Some? ==> m[StringKey(key)] == Text(r.value)
  {
    if StringKey(key) in m && m[StringKey(key)].Text? then Some(m[StringKey(key)].text) else None
  }

  /** Every key of the dictionary is a string, so it bridges to `[String: Any]`. */
  predicate StringKeyed(m: Payload) {
    forall k :: k in m ==> k.StringKey?
  }

  /** The `data` entry, when it is a dictionary whose keys are all strings. */
  function DataInfo(payload: Payload): (r: Option<Payload>)
    ensures r.Some? <==> (StringKey("data") in payload && payload[StringKey("data")].Dictionary?
                          && StringKeyed(payload[StringKey("data")].entries))
    ensures r.Some? ==> payload[StringKey("data")] == Dictionary(r.value)
  {
    if StringKey("data") in payload && payload[StringKey("data")].Dictionary?
      && StringKeyed(payload[StringKey("data")].entries)
    then Some(payload[StringKey("data")].entries)
    else None
  }

  /**
   * The link `processNotifPayload` routes: a string `url` at the top level,
   * failing that a string `url` inside a string-keyed `data` dictionary,
   * failing that nothing.
   */
  function ExtractLink(payload: Payload): (r: Option<string>)
    ensures StringAt(payload, "url").Some? ==> r == StringAt(payload, "url")
    ensures StringAt(payload, "url").None? && DataInfo(payload).Some? ==> r == StringAt(DataInfo(payload).value, "url")
    ensures StringAt(payload, "url").None? && DataInfo(payload).None? ==> r == None
  {
    match StringAt(payload, "url")
    case Some(link) => Some(link)
    case None =>
      match DataInfo(payload)
      case Some(info) => StringAt(info, "url")
      case None => None
  }

  /** A string `url` at the top level is the link, whatever `data` holds. */
  lemma TopLevelLinkWins(payload: Payload, link: string)
    ensures ExtractLink(payload[StringKey("url") := Text(link)]) == Some(link)
  {
    assert StringAt(payload[StringKey("url") := Text(link)], "url") == Some(link);
  }

  /** Without a string top-level `url`, a `data` dictionary `{"url": link}` supplies the link. */
  lemma NestedLinkFallback(payload: Payload, link: string)
    requires StringAt(payload, "url").None?
    ensures ExtractLink(payload[StringKey("data") := Dictionary(map[StringKey("url") := Text(link)])]) == Some(link)
  {
    var info := map[StringKey("url") := Text(link)];
    var p := payload[StringKey("data") := Dictionary(info)];
    assert StringKeyed(info);
    assert StringAt(p, "url") == StringAt(payload, "url");
    assert DataInfo(p) == Some(info);
  }

  /** A `data` dictionary with any non-string key does not bridge, so its `url` is never used. */
  lemma NonStringKeyedDataIgnored(payload: Payload, info: Payload, key: int)
    requires StringAt(payload, "url").None?
    requires IntKey(key) in info
    ensures ExtractLink(payload[StringKey("data") := Dictionary(info)]) == None
  {
    var p := payload[StringKey("data") := Dictionary(info)];
    assert StringAt(p, "url") == StringAt(payload, "url");
    assert !StringKeyed(info);
  }

  // ---------------------------------------------------------------------
  // The key-value store

  const TempLinkKey: string := "temp_link"
  const FcmTokenKey: string := "fcm_token"
  const PushTokenKey: string := "push_token"

  /** `UserDefaults.standard`, holding strings; setting `nil` removes the key. */
  class UserDefaults {
    var entries: map<string, string>

    constructor ()
      ensures entries == map[]
    {
      entries := map[];
    }

    /** `set(value, forKey: key)` for an optional string. */
    method Set(key: string, value: Option<string>)
      modifies this
      ensures value.Some? ==> entries == old(entries)[key := value.value]
      ensures value.None? ==> entries == old(entries) - {key}
    {
      match value {
        case Some(v) => entries := entries[key := v];
        case None => entries := entries - {key};
      }
    }
  }

  /**
   * The store after the token handler: the token under both `fcm_token` and
   * `push_token` (both removed for a missing token), every other key as before.
   */
  function WithToken(entries: map<string, string>, token: Option<string>): (r: map<string, string>)
    ensures token.Some? ==> FcmTokenKey in r && PushTokenKey in r && r[FcmTokenKey] == token.value && r[PushTokenKey] == token.value
    ensures token.None? ==> FcmTokenKey !in r && PushTokenKey !in r
    ensures forall k :: k != FcmTokenKey && k != PushTokenKey ==> (k in r <==> k in entries)
    ensures forall k :: k in r && k != FcmTokenKey && k != PushTokenKey ==> r[k] == entries[k]
  {
    match token
    case Some(t) => entries[FcmTokenKey := t][PushTokenKey := t]
    case None => entries - {FcmTokenKey} - {PushTokenKey}
  }

  // ---------------------------------------------------------------------
  // The delegate

  /** What the delegate posts to `NotificationCenter.default`. */
  datatype Broadcast =
    | ConversionDataReceived(conversionData: Payload)
    | LoadTempUrl(tempLink: string)

  class ApplicationDelegate {
    var conversionData: Payload
    const defaults: UserDefaults
    /** Posts already delivered, oldest first. */
    var posted: seq<Broadcast>
    /** Posts queued behind the two-second delay, oldest first. */
    var delayed: seq<Broadcast>

    constructor (defaults: UserDefaults)
      ensures this.defaults == defaults
      ensures conversionData == map[] && posted == [] && delayed == []
      ensures Valid()
    {
      this.defaults := defaults;
      conversionData := map[];
      posted := [];
      delayed := [];
    }

    /**
     * Every queued post is a `LoadTempURL`, and the newest one carries the
     * link currently stored under `temp_link`.
     */
    predicate Valid()
      reads this, defaults
    {
      && (forall i :: 0 <= i < |delayed| ==> delayed[i].LoadTempUrl?)
      && (delayed != [] ==> TempLinkKey in defaults.entries && defaults.entries[TempLinkKey] == delayed[|delayed| - 1].tempLink)
    }

    /** `onConversionDataSuccess`: keep the attribution data and broadcast exactly it. */
    method OnConversionDataSuccess(data: Payload)
      requires Valid()
      modifies this
      ensures Valid()
      ensures conversionData == data
      ensures posted == old(posted) + [ConversionDataReceived(data)]
      ensures delayed == old(delayed)
    {
      conversionData := data;
      posted := posted + [ConversionDataReceived(conversionData)];
    }

    /** `onConversionDataFail`: broadcast an empty dictionary; the stored data is untouched. */
    method OnConversionDataFail()
      requires Valid()
      modifies this
      ensures Valid()
      ensures conversionData == old(conversionData)
      ensures posted == old(posted) + [ConversionDataReceived(map[])]
      ensures delayed == old(delayed)
    {
      posted := posted + [ConversionDataReceived(map[])];
    }

    /**
     * `processNotifPayload`: store the payload's link under `temp_link` and
     * queue a delayed `LoadTempURL` carrying it; without a link, do nothing.
     */
    method ProcessNotifPayload(payload: Payload)
      requires Valid()
      modifies this, defaults
      ensures Valid()
      ensures match ExtractLink(payload)
        case Some(link) =>
          defaults.entries == old(defaults.entries)[TempLinkKey := link] && delayed == old(delayed) + [LoadTempUrl(link)]
        case None =>
          defaults.entries == old(defaults.entries) && delayed == old(delayed)
      ensures posted == old(posted) && conversionData == old(conversionData)
    {
      var dataPath: Option<string> := None;
      match StringAt(payload, "url") {
        case Some(link) => dataPath := Some(link);
        case None =>
          match DataInfo(payload) {
            case Some(info) =>
              match StringAt(info, "url") {
                case Some(link) => dataPath := Some(link);
                case None =>
              }
            case None =>
          }
      }
      match dataPath {
        case Some(link) =>
          defaults.Set(TempLinkKey, Some(link));
          delayed := delayed + [LoadTempUrl(link)];
        case None =>
      }
    }

    /**
     * The two-second delay of the oldest queued post elapses and it is
     * delivered. It is always a `LoadTempURL`, and when it was the last one
     * queued it carries the link stored under `temp_link`.
     */
    method DeliverDelayed()
      requires Valid() && delayed != []
      modifies this
      ensures Valid()
      ensures posted == old(posted) + [old(delayed)[0]] && delayed == old(delayed)[1..]
      ensures old(delayed)[0].LoadTempUrl?
      ensures delayed == [] ==> TempLinkKey in defaults.entries && old(delayed)[0] == LoadTempUrl(defaults.entries[TempLinkKey])
      ensures conversionData == old(conversionData)
    {
      posted := posted + [delayed[0]];
      delayed := delayed[1..];
    }

    /**
     * The completion handler of `messaging.token`: the token it receives is
     * stored under both token keys.
     */
    method TokenReceived(token: Option<string>)
      requires Valid()
      modifies defaults
      ensures defaults.entries == WithToken(old(defaults.entries), token)
      ensures Valid()
    {
      defaults.Set(FcmTokenKey, token);
      defaults.Set(PushTokenKey, token);
    }

    /**
     * The part of `didFinishLaunchingWithOptions` that is the delegate's own:
     * a remote notification that launched the app is routed like any other.
     * It always reports success.
     */
    method DidFinishLaunching(remoteNotification: Option<Value>) returns (launched: bool)
      requires Valid()
      modifies this, defaults
      ensures Valid()
      ensures launched
      ensures (remoteNotification.Some? && remoteNotification.value.Dictionary?) ==>
        match ExtractLink(remoteNotification.value.entries)
        case Some(link) =>
          defaults.entries == old(defaults.entries)[TempLinkKey := link] && delayed == old(delayed) + [LoadTempUrl(link)]
        case None =>
          defaults.entries == old(defaults.entries) && delayed == old(delayed)
      ensures !(remoteNotification.Some? && remoteNotification.value.Dictionary?) ==>
        defaults.entries == old(defaults.entries) && delayed == old(delayed)
      ensures posted == old(posted) && conversionData == old(conversionData)
    {
      match remoteNotification {
        case Some(Dictionary(payload)) => ProcessNotifPayload(payload);
        case _ =>
      }
      launched := true;
    }
  }
}
