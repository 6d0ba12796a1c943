/** lib/audiosettings.cpp: what a side sends and receives, by direction. */
module Audio {
  import opened Words

  const NO_FORMAT: uint32 := 0
  const LAYER3: uint32 := 3
  const SPEEX: uint32 := 5

  datatype Direction = Transmit | Receive

  datatype Channel = Channel(format: uint32, channels: uint32, bitRate: uint32, processor: bool, ratio: uint32)

  const CLEARED: Channel := Channel(SPEEX, 0, 0, false, 1)

  datatype Settings = Settings(transmit: Channel, receive: Channel, rate: uint32, username: string)
  {
    function Of(dir: Direction): Channel {
      if dir == Transmit then transmit else receive
    }

    /** Without a receive format, receiving follows transmitting. */
    function AutoVector(dir: Direction, trans: bool): (d: Direction)
      ensures d == dir <==> !(trans && receive.format == NO_FORMAT) || dir == Transmit
    {
      if trans && receive.format == NO_FORMAT then Transmit else dir
    }

    /** What the accessors give by default. */
    function Get(dir: Direction): (c: Channel)
      ensures receive.format == NO_FORMAT ==> c == transmit
      ensures receive.format != NO_FORMAT ==> c == Of(dir)
    {
      Of(AutoVector(dir, true))
    }
  }

  class AudioSettings {
    const sides: array<Channel>
    var sampleRate: uint32
    var username: string

    ghost predicate Valid() {
      sides.Length == 2
    }

    function View(): Settings
      requires Valid()
      reads this, sides
    {
      Settings(sides[0], sides[1], sampleRate, username)
    }

    static function Index(dir: Direction): (i: nat)
      ensures i < 2
    {
      if dir == Transmit then 0 else 1
    }

    constructor ()
      ensures Valid() && fresh(sides) && View() == Settings(CLEARED, CLEARED, 0, "")
    {
      sides := new Channel[2](_ => CLEARED);
      sampleRate := 0;
      username := "";
    }

    method Get(dir: Direction, trans: bool) returns (c: Channel)
      requires Valid()
      ensures c == View().Of(View().AutoVector(dir, trans))
    {
      var d := if trans && sides[Index(Receive)].format == NO_FORMAT then Transmit else dir;
      c := sides[Index(d)];
    }

    method SetFormat(dir: Direction, format: uint32)
      requires Valid()
      modifies sides
      ensures sides[..] == old(sides[..])[Index(dir) := old(sides[Index(dir)]).(format := format)]
    {
      sides[Index(dir)] := sides[Index(dir)].(format := format);
    }

    method SetChannels(dir: Direction, channels: uint32)
      requires Valid()
      modifies sides
      ensures sides[..] == old(sides[..])[Index(dir) := old(sides[Index(dir)]).(channels := channels)]
    {
      sides[Index(dir)] := sides[Index(dir)].(channels := channels);
    }

    method SetBitRate(dir: Direction, rate: uint32)
      requires Valid()
      modifies sides
      ensures sides[..] == old(sides[..])[Index(dir) := old(sides[Index(dir)]).(bitRate := rate)]
    {
      sides[Index(dir)] := sides[Index(dir)].(bitRate := rate);
    }

    method SetEnableProcessor(dir: Direction, state: bool)
      requires Valid()
      modifies sides
      ensures sides[..] == old(sides[..])[Index(dir) := old(sides[Index(dir)]).(processor := state)]
    {
      sides[Index(dir)] := sides[Index(dir)].(processor := state);
    }

    method SetStreamRatio(dir: Direction, ratio: uint32)
      requires Valid()
      modifies sides
      ensures sides[..] == old(sides[..])[Index(dir) := old(sides[Index(dir)]).(ratio := ratio)]
    {
      sides[Index(dir)] := sides[Index(dir)].(ratio := ratio);
    }
  }
}
