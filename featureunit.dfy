/** The Feature Unit control requests of section 5.2.2.4 of the USB Device Class
    Definition for Audio Devices 1.0, as `usb_audio_get_feature` and
    `usb_audio_set_feature` decode them (teensy4/usb_audio.cpp:539-596): mute and volume
    of the one feature unit, read and written through an 8-byte setup packet. */
module FeatureUnit {
  import opened Words

  /** `struct usb_audio_features_struct`: `change` is set to 1 whenever the host writes
      a control, for the audio side to poll. */
  datatype Features = Features(change: int, mute: int, volume: int)

  /** The static initializer `{0, 0, FEATURE_MAX_VOLUME/2}` (teensy4/usb_audio.cpp:46). */
  function InitialFeatures(maxVolume: nat): Features
  {
    Features(0, 0, maxVolume / 2)
  }

  // bmRequestType values: class request to an interface, device-to-host and host-to-device
  const GetRequestType: uint8 := 0xA1
  const SetRequestType: uint8 := 0x21

  // bRequest codes
  const SetCur: uint8 := 0x01
  const GetCur: uint8 := 0x81
  const GetMin: uint8 := 0x82
  const GetMax: uint8 := 0x83
  const GetRes: uint8 := 0x84

  // bCS control selectors
  const MuteControl: uint8 := 0x01
  const VolumeControl: uint8 := 0x02

  /** A setup packet: byte 0 is bmRequestType, byte 1 bRequest, byte 2 bChannel, byte 3
      the control selector bCS (the high byte of wValue), bytes 4-7 wIndex and wLength. */
  predicate IsSetup(setup: seq<uint8>)
  {
    |setup| == 8
  }

  /** The low byte of an `int`: what `& 0xFF`, or a store into a `uint8_t`, keeps. */
  function Byte(x: int): uint8
  {
    (x % 0x100) as uint8
  }

  /** `usb_audio_get_feature`: the reply bytes (`data[0..*datalen]`), or None when the
      request is not handled (the function returns 0 and leaves `*datalen` alone). The
      request code is not checked for the mute selector. */
  function GetFeature(setup: seq<uint8>, f: Features, maxVolume: nat): (reply: Option<seq<uint8>>)
    requires IsSetup(setup)
    ensures reply.Some? <==>
              && setup[0] == GetRequestType
              && (setup[3] == MuteControl || (setup[3] == VolumeControl && GetCur <= setup[1] <= GetRes))
    ensures reply.Some? && setup[3] == MuteControl ==> reply.value == [Byte(f.mute)]
    ensures reply.Some? && setup[3] == VolumeControl ==> |reply.value| == 2
    ensures reply.Some? && setup[3] == VolumeControl ==>
              Word16(reply.value) == if setup[1] == GetCur then f.volume % 0x1_0000
                                     else if setup[1] == GetMin then 0
                                     else if setup[1] == GetMax then maxVolume % 0x100
                                     else 1
  {
    if setup[0] != GetRequestType then None
    else if setup[3] == MuteControl then Some([Byte(f.mute)])
    else if setup[3] == VolumeControl then
      if setup[1] == GetCur then
        LowBytes(f.volume);
        Some([Byte(f.volume), Byte(f.volume / 0x100)])
      else if setup[1] == GetMin then Some([0, 0])
      else if setup[1] == GetMax then Some([Byte(maxVolume), 0])
      else if setup[1] == GetRes then Some([1, 0])
      else None
    else None
  }

  /** A two-byte reply read as a little-endian 16-bit value. */
  function Word16(bytes: seq<uint8>): int
    requires |bytes| == 2
  {
    bytes[0] as int + 0x100 * bytes[1] as int
  }

  /** The low byte and the byte above it make up the low 16 bits. */
  lemma LowBytes(x: int)
    ensures Word16([Byte(x), Byte(x / 0x100)]) == x % 0x1_0000
  {
    var q := x / 0x100;
    assert x == 0x100 * q + x % 0x100;
    assert q == 0x100 * (q / 0x100) + q % 0x100;
    assert x == 0x1_0000 * (q / 0x100) + (0x100 * (q % 0x100) + x % 0x100);
  }

  /** Whether `usb_audio_set_feature` handles a request: a SET_CUR of the mute or the
      volume control. */
  predicate SetHandled(setup: seq<uint8>)
    requires IsSetup(setup)
  {
    setup[0] == SetRequestType && setup[1] == SetCur
    && (setup[3] == MuteControl || setup[3] == VolumeControl)
  }

  /** The features after `usb_audio_set_feature` with data stage `buf`: the selected
      control takes the first data byte and `change` is raised; an unhandled request
      changes nothing. */
  function SetFeature(setup: seq<uint8>, buf: seq<uint8>, f: Features): (g: Features)
    requires IsSetup(setup) && (SetHandled(setup) ==> |buf| >= 1)
    ensures !SetHandled(setup) ==> g == f
    ensures SetHandled(setup) ==>
              && g.change == 1
              && (setup[3] == MuteControl ==> g == f.(change := 1, mute := buf[0] as int))
              && (setup[3] == VolumeControl ==> g == f.(change := 1, volume := buf[0] as int))
  {
    if !SetHandled(setup) then f
    else if setup[3] == MuteControl then f.(change := 1, mute := buf[0] as int)
    else f.(change := 1, volume := buf[0] as int)
  }

  /** The setup packet of a request with the given type, code and control selector. */
  function Request(requestType: uint8, request: uint8, selector: uint8): (setup: seq<uint8>)
    ensures IsSetup(setup)
  {
    [requestType, request, 0, selector, 0, 0, 0, 0]
  }

  /** After a volume SET_CUR with data byte `b`, a volume GET_CUR reads back `[b, 0]`:
      only the low byte is stored, so a volume above 255 cannot be set. */
  lemma VolumeRoundTrip(f: Features, b: uint8, rest: seq<uint8>, maxVolume: nat)
    ensures var g := SetFeature(Request(SetRequestType, SetCur, VolumeControl), [b] + rest, f);
            GetFeature(Request(GetRequestType, GetCur, VolumeControl), g, maxVolume) == Some([b, 0])
  {
    var g := SetFeature(Request(SetRequestType, SetCur, VolumeControl), [b] + rest, f);
    assert g.volume == b as int;
    assert Byte(g.volume) == b && Byte(g.volume / 0x100) == 0;
  }

  /** After a mute SET_CUR with data byte `b`, a mute GET_CUR reads back `[b]`. */
  lemma MuteRoundTrip(f: Features, b: uint8, rest: seq<uint8>, maxVolume: nat)
    ensures var g := SetFeature(Request(SetRequestType, SetCur, MuteControl), [b] + rest, f);
            GetFeature(Request(GetRequestType, GetCur, MuteControl), g, maxVolume) == Some([b])
  {
    var g := SetFeature(Request(SetRequestType, SetCur, MuteControl), [b] + rest, f);
    assert Byte(g.mute) == b;
  }

  /** Reading never depends on the request code for the mute control: any request code,
      even a SET_ code sent device-to-host, is answered with the mute byte. */
  lemma MuteIgnoresRequestCode(f: Features, request: uint8, maxVolume: nat)
    ensures GetFeature(Request(GetRequestType, request, MuteControl), f, maxVolume) == Some([Byte(f.mute)])
  {
  }

  /** The initial volume reads back as half the maximum. */
  lemma InitialVolume(maxVolume: nat)
    requires maxVolume < 0x100
    ensures GetFeature(Request(GetRequestType, GetCur, VolumeControl), InitialFeatures(maxVolume), maxVolume)
            == Some([(maxVolume / 2) as uint8, 0])
  {
  }
}
