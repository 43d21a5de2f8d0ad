/**
 * `LaunchManagerImpl` over `UserDefaultsManagerImpl`: the first-launch flag
 * stored under one key of the user defaults, JSON-encoded as `Data`.
 */
module Launch {
  import opened Results

  /** A user-defaults object: `Data`, or any other property-list value. */
  datatype DefaultsValue = DataValue(bytes: string) | OtherValue

  /** The user defaults, as a key-value map. */
  type Defaults = map<string, DefaultsValue>

  const LaunchKey := "didLaunchBefore"

  /** `JSONEncoder().encode(b)` for a top-level `Bool`. */
  function EncodeBool(b: bool): string {
    if b then "true" else "false"
  }

  predicate IsJsonWhitespace(c: char) {
    c == ' ' || c == '\t' || c == '\n' || c == '\r'
  }

  /** `data` without the JSON whitespace before and after the value. */
  function StripJsonWhitespace(data: string): (r: string)
    ensures |r| <= |data|
    ensures r != [] ==> !IsJsonWhitespace(r[0]) && !IsJsonWhitespace(r[|r| - 1])
    decreases |data|
  {
    if data == [] then []
    else if IsJsonWhitespace(data[0]) then StripJsonWhitespace(data[1..])
    else if IsJsonWhitespace(data[|data| - 1]) then StripJsonWhitespace(data[..|data| - 1])
    else data
  }

  /** `JSONDecoder().decode(Bool.self, from: data)`, `None` when it throws. */
  function DecodeBool(data: string): (r: Option<bool>)
    ensures r == Some(true) <==> StripJsonWhitespace(data) == "true"
    ensures r == Some(false) <==> StripJsonWhitespace(data) == "false"
  {
    var t := StripJsonWhitespace(data);
    if t == "true" then Some(true) else if t == "false" then Some(false) else None
  }

  /** Decoding what the encoder wrote gives the value back. */
  lemma DecodeEncode(b: bool)
    ensures DecodeBool(EncodeBool(b)) == Some(b)
  {
    assert StripJsonWhitespace(EncodeBool(b)) == EncodeBool(b);
  }

  /**
   * `get(forKey:type: Bool.self)`: nil when there is no `Data` under the key
   * or when it does not decode as a `Bool`.
   */
  function GetBool(d: Defaults, key: string): (r: Option<bool>)
    ensures key !in d ==> r == None
    ensures key in d && d[key].OtherValue? ==> r == None
    ensures key in d && d[key].DataValue? ==> r == DecodeBool(d[key].bytes)
  {
    if key in d && d[key].DataValue? then DecodeBool(d[key].bytes) else None
  }

  /** `set(_:forKey:)` for a `Bool`; its encoding cannot fail. */
  function SetBool(d: Defaults, key: string, b: bool): (r: Defaults)
    ensures GetBool(r, key) == Some(b)
    ensures forall k :: k != key ==> (k in r <==> k in d) && (k in d ==> r[k] == d[k])
  {
    DecodeEncode(b);
    d[key := DataValue(EncodeBool(b))]
  }

  /**
   * `isFirstLaunch`: `!(get(...) ?? false)`. It is a first launch unless a
   * decodable `true` is stored, so a missing, foreign, undecodable or
   * `false` value all read as a first launch.
   */
  predicate FirstLaunch(d: Defaults) {
    !OrElse(GetBool(d, LaunchKey), false)
  }

  lemma FirstLaunchExactly(d: Defaults)
    ensures FirstLaunch(d) <==> GetBool(d, LaunchKey) != Some(true)
    ensures LaunchKey !in d ==> FirstLaunch(d)
  {
  }

  /** `markAppLaunched`: stores `true` under the launch key. */
  function MarkLaunched(d: Defaults): (r: Defaults)
    ensures LaunchKey in r
    ensures forall k :: k != LaunchKey ==> (k in r <==> k in d) && (k in d ==> r[k] == d[k])
  {
    SetBool(d, LaunchKey, true)
  }

  /** After `markAppLaunched`, it is no longer a first launch. */
  lemma MarkedIsNotFirstLaunch(d: Defaults)
    ensures !FirstLaunch(MarkLaunched(d))
  {
    DecodeEncode(true);
  }

  /** Marking twice leaves the defaults as marking once. */
  lemma MarkIdempotent(d: Defaults)
    ensures MarkLaunched(MarkLaunched(d)) == MarkLaunched(d)
  {
  }

  class LaunchManagerImpl {
    /** The user defaults the manager reads and writes. */
    var defaults: Defaults

    constructor (defaults: Defaults)
      ensures this.defaults == defaults
    {
      this.defaults := defaults;
    }

    /** `isFirstLaunch`; a read, so the defaults stay as they are. */
    function IsFirstLaunch(): (r: bool)
      reads this
      ensures r <==> GetBool(defaults, LaunchKey) != Some(true)
    {
      FirstLaunch(defaults)
    }

    /** `markAppLaunched`: writes the launch key and no other. */
    method MarkAppLaunched()
      modifies this
      ensures defaults == MarkLaunched(old(defaults))
      ensures !IsFirstLaunch()
    {
      MarkedIsNotFirstLaunch(defaults);
      defaults := defaults[LaunchKey := DataValue(EncodeBool(true))];
    }
  }
}
