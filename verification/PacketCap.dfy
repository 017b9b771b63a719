/** The byte cap on decision-packet text (scripts/gdad_run.py): UTF-8 encoding as in section 3 of RFC 3629,
    truncation on a byte budget, and decoding that ignores what is malformed. */
module PacketCap {
  import opened Wrappers

  type Byte = b: int | 0 <= b < 256

  const MD_CAP_BYTES := 2048
  const TRUNCATED_SUFFIX := "\n[truncated]"

  // ---------------------------------------------------------------- encoding

  /** One code point as 1 to 4 bytes. */
  function Utf8(c: char): (bytes: seq<Byte>)
    ensures 1 <= |bytes| <= 4
  {
    var n := c as int;
    if n < 0x80 then [n]
    else if n < 0x800 then [0xC0 + n / 0x40, 0x80 + n % 0x40]
    else if n < 0x10000 then [0xE0 + n / 0x1000, 0x80 + n / 0x40 % 0x40, 0x80 + n % 0x40]
    else [0xF0 + n / 0x40000, 0x80 + n / 0x1000 % 0x40, 0x80 + n / 0x40 % 0x40, 0x80 + n % 0x40]
  }

  /** The bytes of a code point: the length goes by its range, the first byte is marked with that length, the others
      as continuations, and the bits left over spell it. */
  lemma Utf8Tells(c: char)
    ensures var n, bytes := c as int, seq(|Utf8(c)|, i requires 0 <= i < |Utf8(c)| => Utf8(c)[i] as int);
      && (n < 0x80 ==> |bytes| == 1 && bytes[0] == n)
      && (0x80 <= n < 0x800 ==>
            |bytes| == 2 && 0xC0 <= bytes[0] < 0xE0 && n == (bytes[0] - 0xC0) * 64 + (bytes[1] - 0x80))
      && (0x800 <= n < 0x10000 ==>
            && |bytes| == 3 && 0xE0 <= bytes[0] < 0xF0
            && n == (bytes[0] - 0xE0) * 4096 + (bytes[1] - 0x80) * 64 + (bytes[2] - 0x80))
      && (0x10000 <= n ==>
            && |bytes| == 4 && 0xF0 <= bytes[0] < 0xF5
            && n == (bytes[0] - 0xF0) * 262144 + (bytes[1] - 0x80) * 4096 + (bytes[2] - 0x80) * 64 + (bytes[3] - 0x80))
      && forall i :: 1 <= i < |bytes| ==> 0x80 <= bytes[i] < 0xC0
  {
    EncodedIsWellFormed(c);
  }

  function Encode(text: string): seq<Byte> {
    if text == "" then [] else Utf8(text[0]) + Encode(text[1..])
  }

  // ---------------------------------------------------------------- decoding

  predicate Continuation(b: Byte) {
    0x80 <= b < 0xC0
  }

  /** How many bytes a sequence starting with `b` has; 0 when none starts with it. */
  function SequenceLength(b: Byte): nat {
    if b < 0x80 then 1
    else if 0xC0 <= b < 0xE0 then 2
    else if 0xE0 <= b < 0xF0 then 3
    else if 0xF0 <= b < 0xF8 then 4
    else 0
  }

  /** The number spelled by a sequence of that length. */
  function Scalar(bytes: seq<Byte>): int
    requires 1 <= |bytes| <= 4
  {
    if |bytes| == 1 then Above(bytes[0], 0)
    else if |bytes| == 2 then Above(bytes[0], 0xC0) * 0x40 + Above(bytes[1], 0x80)
    else if |bytes| == 3 then Above(bytes[0], 0xE0) * 0x1000 + Above(bytes[1], 0x80) * 0x40 + Above(bytes[2], 0x80)
    else
      Above(bytes[0], 0xF0) * 0x40000 + Above(bytes[1], 0x80) * 0x1000
      + Above(bytes[2], 0x80) * 0x40 + Above(bytes[3], 0x80)
  }

  /** The payload bits of a byte above its marker. */
  function Above(b: Byte, marker: int): int {
    (b as int) - marker
  }

  /** Neither overlong nor a surrogate nor beyond U+10FFFF. */
  predicate WellFormed(bytes: seq<Byte>)
    requires 1 <= |bytes| <= 4
  {
    var n := Scalar(bytes);
    && (forall i :: 1 <= i < |bytes| ==> Continuation(bytes[i]))
    && (if |bytes| == 1 then 0 <= n < 0x80
        else if |bytes| == 2 then 0x80 <= n < 0x800
        else if |bytes| == 3 then 0x800 <= n < 0xD800 || 0xE000 <= n < 0x10000
        else 0x10000 <= n < 0x110000)
  }

  /** The code point the input starts with, and how many bytes it takes. */
  function Head(bytes: seq<Byte>): (head: Option<(char, nat)>)
    requires |bytes| > 0
    ensures head.Some? ==> 1 <= head.value.1 <= |bytes|
  {
    var n := SequenceLength(bytes[0]);
    if n == 0 || n > |bytes| || !WellFormed(bytes[..n]) then None
    else Some((Scalar(bytes[..n]) as char, n))
  }

  /** bytes.decode("utf-8", errors="ignore"): a byte that starts no code point is dropped. */
  function DecodeIgnore(bytes: seq<Byte>): string
    decreases |bytes|
  {
    if bytes == [] then ""
    else match Head(bytes)
      case Some((c, n)) => [c] + DecodeIgnore(bytes[n..])
      case None => DecodeIgnore(bytes[1..])
  }

  // ---------------------------------------------------------------- decoding a truncated encoding

  lemma Digits64(n: nat)
    ensures n == n / 0x40 * 0x40 + n % 0x40
    ensures n / 0x40 == n / 0x1000 * 0x40 + n / 0x40 % 0x40
    ensures n / 0x1000 == n / 0x40000 * 0x40 + n / 0x1000 % 0x40
  {
  }

  lemma EncodedIsWellFormed(c: char)
    ensures SequenceLength(Utf8(c)[0]) == |Utf8(c)|
    ensures WellFormed(Utf8(c)) && Scalar(Utf8(c)) == c as int
  {
    var n := c as int;
    var bytes := Utf8(c);
    Digits64(n);
    if n < 0x800 {
    } else if n < 0x10000 {
      assert Scalar(bytes) == n / 0x1000 * 0x1000 + n / 0x40 % 0x40 * 0x40 + n % 0x40;
    } else {
      assert n / 0x40000 < 5;
      assert Scalar(bytes) == n / 0x40000 * 0x40000 + n / 0x1000 % 0x40 * 0x1000 + n / 0x40 % 0x40 * 0x40 + n % 0x40;
    }
  }

  lemma HeadOfEncoded(c: char, rest: seq<Byte>)
    ensures Head(Utf8(c) + rest) == Some((c, |Utf8(c)|))
  {
    EncodedIsWellFormed(c);
    assert (Utf8(c) + rest)[..|Utf8(c)|] == Utf8(c);
  }

  lemma {:induction false} ContinuationsDropped(bytes: seq<Byte>)
    requires forall i :: 0 <= i < |bytes| ==> Continuation(bytes[i])
    ensures DecodeIgnore(bytes) == ""
  {
    if bytes != [] {
      ContinuationsDropped(bytes[1..]);
    }
  }

  /** A code point cut short leaves nothing. */
  lemma CutCodePointDropped(c: char, k: nat)
    requires k < |Utf8(c)|
    ensures DecodeIgnore(Utf8(c)[..k]) == ""
  {
    EncodedIsWellFormed(c);
    var cut := Utf8(c)[..k];
    if k > 0 {
      assert Head(cut) == None;
      forall i | 0 <= i < |cut[1..]| ensures Continuation(cut[1..][i]) {
        assert cut[1..][i] == Utf8(c)[i + 1];
      }
      ContinuationsDropped(cut[1..]);
    }
  }

  /** How many whole code points of `text` fit in `budget` bytes. */
  function Fitting(text: string, budget: nat): (n: nat)
    ensures n <= |text|
  {
    if text == "" || |Utf8(text[0])| > budget then 0
    else 1 + Fitting(text[1..], budget - |Utf8(text[0])|)
  }

  /** `Fitting` is the longest prefix that fits, by its defining property. */
  lemma {:induction false} FittingIsLongest(text: string, budget: nat, m: nat)
    requires m <= |text|
    ensures |Encode(text[..m])| <= budget <==> m <= Fitting(text, budget)
  {
    if m > 0 {
      assert text[..m][0] == text[0] && text[..m][1..] == text[1..][..m - 1];
      if |Utf8(text[0])| <= budget {
        FittingIsLongest(text[1..], budget - |Utf8(text[0])|, m - 1);
      }
    }
  }

  /** Decoding any byte prefix of an encoding gives the longest whole-code-point prefix of the text. */
  lemma {:induction false} DecodePrefix(text: string, k: nat)
    requires k <= |Encode(text)|
    ensures DecodeIgnore(Encode(text)[..k]) == text[..Fitting(text, k)]
  {
    if text != "" {
      var first, rest := Utf8(text[0]), Encode(text[1..]);
      if k < |first| {
        assert Encode(text)[..k] == first[..k];
        CutCodePointDropped(text[0], k);
      } else {
        assert Encode(text)[..k] == first + rest[..k - |first|];
        HeadOfEncoded(text[0], rest[..k - |first|]);
        assert (first + rest[..k - |first|])[|first|..] == rest[..k - |first|];
        DecodePrefix(text[1..], k - |first|);
        assert [text[0]] + text[1..][..Fitting(text[1..], k - |first|)] == text[..Fitting(text, k)];
      }
    }
  }

  /** Nothing is lost between encoding and decoding. */
  lemma DecodeEncode(text: string)
    ensures DecodeIgnore(Encode(text)) == text
  {
    DecodePrefix(text, |Encode(text)|);
    assert Encode(text)[..|Encode(text)|] == Encode(text);
    assert text[..|text|] == text;
    FittingIsLongest(text, |Encode(text)|, |text|);
  }

  lemma {:induction false} EncodeAppend(a: string, b: string)
    ensures Encode(a + b) == Encode(a) + Encode(b)
  {
    if a == "" {
      assert a + b == b;
    } else {
      assert (a + b)[0] == a[0] && (a + b)[1..] == a[1..] + b;
      EncodeAppend(a[1..], b);
      assert Utf8(a[0]) + (Encode(a[1..]) + Encode(b)) == Utf8(a[0]) + Encode(a[1..]) + Encode(b);
    }
  }

  // ---------------------------------------------------------------- the cap

  function CapField(text: string, cap: int): string {
    var raw := Encode(text);
    var budget := cap - |Encode(TRUNCATED_SUFFIX)|;
    if |raw| <= cap then text
    else if budget < 1 then TRUNCATED_SUFFIX[1..]
    else DecodeIgnore(raw[..budget]) + TRUNCATED_SUFFIX
  }

  lemma {:induction false} AsciiEncoding(text: string)
    requires forall i :: 0 <= i < |text| ==> text[i] as int < 0x80
    ensures |Encode(text)| == |text|
  {
    if text != "" {
      AsciiEncoding(text[1..]);
    }
  }

  lemma SuffixBytes()
    ensures |Encode(TRUNCATED_SUFFIX)| == 12 && |Encode(TRUNCATED_SUFFIX[1..])| == 11
  {
    hide Encode;
    AsciiEncoding(TRUNCATED_SUFFIX);
    AsciiEncoding(TRUNCATED_SUFFIX[1..]);
  }

  /** Text that fits is untouched; longer text becomes the longest whole-code-point prefix that leaves
      room for the 12-byte suffix, followed by the suffix. */
  lemma CapFieldTruncates(text: string, cap: int)
    requires cap >= 13
    ensures |Encode(text)| <= cap ==> CapField(text, cap) == text
    ensures |Encode(text)| > cap ==> exists n: nat :: CutAt(text, cap, n)
  {
    hide Encode, DecodeIgnore, Fitting;
    SuffixBytes();
    if |Encode(text)| > cap {
      var n := Fitting(text, cap - 12);
      DecodePrefix(text, cap - 12);
      FittingIsLongest(text, cap - 12, n);
      FittingIsLongest(text, cap - 12, |text|);
      assert text[..|text|] == text;
      FittingIsLongest(text, cap - 12, n + 1);
      assert CutAt(text, cap, n);
    }
  }

  /** The field is the first `n` code points and the suffix, and one more code point would not fit. */
  ghost predicate CutAt(text: string, cap: int, n: nat) {
    && n < |text|
    && CapField(text, cap) == text[..n] + "\n[truncated]"
    && |Encode(text[..n])| <= cap - 12
    && |Encode(text[..n + 1])| > cap - 12
  }

  /** With less room than the suffix and one byte, only the marker is left of a text that does not fit. */
  lemma NarrowCapTells(text: string, cap: int)
    requires cap < 13
    ensures CapField(text, cap) == if |Encode(text)| <= cap then text else "[truncated]"
  {
    SuffixBytes();
    hide Encode;
    assert TRUNCATED_SUFFIX[1..] == "[truncated]";
  }

  /** The cap is a byte cap: no field encodes to more, however small the cap (below 11 bytes the bare
      marker remains). */
  lemma CapFieldFits(text: string, cap: int)
    ensures |Encode(CapField(text, cap))| <= (if cap < 11 then 11 else cap)
  {
    hide Encode, DecodeIgnore, Fitting;
    SuffixBytes();
    if |Encode(text)| > cap && cap >= 13 {
      var n := Fitting(text, cap - 12);
      DecodePrefix(text, cap - 12);
      FittingIsLongest(text, cap - 12, n);
      EncodeAppend(text[..n], TRUNCATED_SUFFIX);
    }
  }

  // ---------------------------------------------------------------- packets

  /** An entry of a packet's option list: an object with the three fields shown and others, or not an object. */
  datatype PacketOption =
    | Choice(id: string, caption: string, consequence: string, other: map<string, string>)
    | NotAnObject

  /** A packet; `other` stands for the fields the cap leaves alone. */
  datatype Packet = Packet(question: string, evidence: string, done: seq<string>, options: seq<PacketOption>,
                           other: string)

  function Cap(text: string): string {
    CapField(text, MD_CAP_BYTES)
  }

  function CapAll(items: seq<string>): seq<string> {
    seq(|items|, i requires 0 <= i < |items| => Cap(items[i]))
  }

  function CapOptions(options: seq<PacketOption>): seq<PacketOption> {
    if options == [] then []
    else
      var front := CapOptions(options[..|options| - 1]);
      match options[|options| - 1]
      case NotAnObject => front
      case Choice(id, caption, consequence, _) => front + [Choice(Cap(id), Cap(caption), Cap(consequence), map[])]
  }

  function CapPacket(packet: Packet): Packet {
    packet.(question := Cap(packet.question),
            evidence := Cap(packet.evidence),
            done := CapAll(if |packet.done| > 5 then packet.done[..5] else packet.done),
            options := CapOptions(packet.options))
  }

  /** What becomes of one entry of an option list: a choice keeps its three fields, each capped, and loses its others;
      an entry that is not an object goes. */
  ghost function Kept(option: PacketOption): seq<PacketOption> {
    match option
    case NotAnObject => []
    case Choice(id, caption, consequence, _) =>
      [Choice(CapField(id, 2048), CapField(caption, 2048), CapField(consequence, 2048), map[])]
  }

  lemma NoOptions()
    ensures CapOptions([]) == []
  {
  }

  lemma OneMore(options: seq<PacketOption>, option: PacketOption)
    ensures CapOptions(options + [option]) == CapOptions(options) + Kept(option)
  {
    hide CapField;
    var all := options + [option];
    assert all[..|all| - 1] == options;
  }

  /** Every entry is treated by itself, in order. */
  lemma {:induction false} OptionsTell(front: seq<PacketOption>, option: PacketOption, back: seq<PacketOption>)
    ensures CapOptions(front + [option] + back) == CapOptions(front) + Kept(option) + CapOptions(back)
    decreases |back|
  {
    hide CapOptions, Kept;
    if back == [] {
      OneMore(front, option);
      NoOptions();
      assert front + [option] + back == front + [option];
      assert CapOptions(front) + Kept(option) + [] == CapOptions(front) + Kept(option);
    } else {
      var less, last := back[..|back| - 1], back[|back| - 1];
      var done := front + [option];
      calc {
        CapOptions(done + back);
      == { assert back == less + [last]; Regroup(done, less, [last]); }
        CapOptions(done + less + [last]);
      == { OneMore(done + less, last); }
        CapOptions(done + less) + Kept(last);
      == { OptionsTell(front, option, less); }
        CapOptions(front) + Kept(option) + CapOptions(less) + Kept(last);
      == { Regroup(CapOptions(front) + Kept(option), CapOptions(less), Kept(last)); }
        CapOptions(front) + Kept(option) + (CapOptions(less) + Kept(last));
      == { OneMore(less, last); assert back == less + [last]; }
        CapOptions(front) + Kept(option) + CapOptions(back);
      }
    }
  }

  lemma Regroup<T>(a: seq<T>, b: seq<T>, c: seq<T>)
    ensures a + b + c == a + (b + c)
  {
  }

  /** What capping a packet does: question, evidence and each of at most five done items are the originals capped at
      2048 bytes, in order; so are the three fields of the options; the rest of the packet stays. */
  lemma CapPacketTells(packet: Packet)
    ensures var capped := CapPacket(packet);
      && capped.question == CapField(packet.question, 2048) && capped.evidence == CapField(packet.evidence, 2048)
      && |capped.done| == (if |packet.done| > 5 then 5 else |packet.done|)
      && (forall i :: 0 <= i < |capped.done| ==> capped.done[i] == CapField(packet.done[i], 2048))
      && (packet.options == [] ==> capped.options == [])
      && (forall i :: 0 <= i < |packet.options| ==>
            capped.options ==
              CapOptions(packet.options[..i]) + Kept(packet.options[i]) + CapOptions(packet.options[i + 1..]))
      && capped.other == packet.other
  {
    NoOptions();
    hide CapField, CapOptions, Kept;
    forall i | 0 <= i < |packet.options|
      ensures CapOptions(packet.options) ==
        CapOptions(packet.options[..i]) + Kept(packet.options[i]) + CapOptions(packet.options[i + 1..])
    {
      OptionsTell(packet.options[..i], packet.options[i], packet.options[i + 1..]);
      assert packet.options == packet.options[..i] + [packet.options[i]] + packet.options[i + 1..];
    }
  }

  /** No field of a capped packet takes more than 2048 bytes. */
  lemma CapPacketFits(packet: Packet)
    ensures var capped := CapPacket(packet);
      && |Encode(capped.question)| <= 2048 && |Encode(capped.evidence)| <= 2048
      && (forall i :: 0 <= i < |capped.done| ==> |Encode(capped.done[i])| <= 2048)
      && forall i :: 0 <= i < |capped.options| ==>
           && capped.options[i].Choice? && |Encode(capped.options[i].id)| <= 2048
           && |Encode(capped.options[i].caption)| <= 2048 && |Encode(capped.options[i].consequence)| <= 2048
  {
    OptionsFit(packet.options);
    hide Encode, CapField, Cap;
    forall text ensures |Encode(Cap(text))| <= 2048 { CapOnce(text); }
  }

  lemma {:induction false} OptionsFit(options: seq<PacketOption>)
    ensures forall i :: 0 <= i < |CapOptions(options)| ==>
      var option := CapOptions(options)[i];
      && option.Choice? && |Encode(option.id)| <= 2048
      && |Encode(option.caption)| <= 2048 && |Encode(option.consequence)| <= 2048
  {
    if options != [] {
      OptionsFit(options[..|options| - 1]);
      hide Encode, Cap;
      forall text ensures |Encode(Cap(text))| <= 2048 { CapOnce(text); }
    }
  }

  lemma CapOnce(text: string)
    ensures |Encode(Cap(text))| <= MD_CAP_BYTES && Cap(Cap(text)) == Cap(text)
  {
    CapFieldFits(text, MD_CAP_BYTES);
  }

  lemma {:induction false} OptionsOnce(options: seq<PacketOption>)
    ensures CapOptions(CapOptions(options)) == CapOptions(options)
  {
    if options != [] {
      hide Cap;
      var front := CapOptions(options[..|options| - 1]);
      OptionsOnce(options[..|options| - 1]);
      match options[|options| - 1]
      case NotAnObject =>
      case Choice(id, caption, consequence, _) =>
        CapOnce(id);
        CapOnce(caption);
        CapOnce(consequence);
        assert CapOptions(options)[..|front|] == front;
    }
  }

  /** A packet is capped before it is stored and again when it is rendered: the second time changes nothing. */
  lemma CapPacketOnce(packet: Packet)
    ensures CapPacket(CapPacket(packet)) == CapPacket(packet)
  {
    hide Cap;
    CapOnce(packet.question);
    CapOnce(packet.evidence);
    OptionsOnce(packet.options);
    var done := CapPacket(packet).done;
    forall i | 0 <= i < |done| ensures Cap(done[i]) == done[i] {
      CapOnce(packet.done[i]);
    }
  }
}
