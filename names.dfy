/** Domain names on the wire, as Domain/DnsMessage/Question.cs and
    Domain/DnsMessage/Record.cs read and write them. Both files carry the same
    two loops; they are modelled once here. The reader follows section 3.1 of
    RFC 1035 (length-prefixed labels ended by a zero byte) but not the
    compression of section 4.1.4: every non-zero byte is a label length. The
    writer emits every '.'-separated part of the text with a length byte, so
    a name must end in '.' for the last, empty, part to become the terminator. */
module Names {
  import opened Wrappers
  import opened Linq
  import opened Convert

  // ----- Text side -----

  /** `string.Split('.')`: every part, empty ones included. */
  function Split(s: string): (parts: seq<string>)
    ensures |parts| >= 1
    ensures forall k :: 0 <= k < |parts| ==> '.' !in parts[k]
  {
    if s == [] then [[]]
    else
      var rest := Split(s[1..]);
      if s[0] == '.' then [[]] + rest
      else [[s[0]] + rest[0]] + rest[1..]
  }

  /** The parts joined with '.' in between. */
  function Unsplit(parts: seq<string>): string
    requires |parts| >= 1
  {
    if |parts| == 1 then parts[0] else parts[0] + "." + Unsplit(parts[1..])
  }

  /** The text the reader builds: every label followed by '.'. */
  function Dotted(labels: seq<string>): string {
    if labels == [] then [] else labels[0] + "." + Dotted(labels[1..])
  }

  /** A label the wire form carries without loss: 1 to 255 ASCII characters. */
  predicate ValidLabel(text: string) {
    1 <= |text| <= 255 && IsAscii(text)
  }

  /** A name that encoding and decoding give back unchanged: "" or a sequence
      of valid labels, each followed by '.'. */
  predicate ValidName(name: string) {
    var parts := Split(name);
    parts[|parts| - 1] == [] && forall k :: 0 <= k < |parts| - 1 ==> ValidLabel(parts[k])
  }

  /** Splitting at '.' loses nothing. */
  lemma {:induction false} UnsplitSplit(s: string)
    ensures Unsplit(Split(s)) == s
  {
    if s != [] {
      var rest := Split(s[1..]);
      UnsplitSplit(s[1..]);
      if s[0] == '.' {
        assert ([[]] + rest)[1..] == rest;
      } else if |rest| > 1 {
        assert ([[s[0]] + rest[0]] + rest[1..])[1..] == rest[1..];
        assert Unsplit(rest) == rest[0] + "." + Unsplit(rest[1..]);
      }
    }
  }

  /** Joining labels with a final empty part is the dotted form. */
  lemma {:induction false} UnsplitDotted(labels: seq<string>)
    ensures Unsplit(labels + [[]]) == Dotted(labels)
  {
    if labels != [] {
      assert (labels + [[]])[1..] == labels[1..] + [[]];
      UnsplitDotted(labels[1..]);
    }
  }

  // ----- Wire side -----

  /** One part on the wire: `(byte)bytes.Count()`, which keeps the count
      modulo 256, then the UTF-8 bytes. */
  function EncodeLabel(part: string): (r: seq<Byte>)
    ensures |r| == 1 + |GetBytes(part)|
  {
    var bytes := GetBytes(part);
    [|bytes| % 0x100] + bytes
  }

  function EncodeParts(parts: seq<string>): seq<Byte> {
    if parts == [] then [] else EncodeLabel(parts[0]) + EncodeParts(parts[1..])
  }

  /** The name as `GetBytes` writes it. */
  function Encode(name: string): seq<Byte> {
    EncodeParts(Split(name))
  }

  lemma {:induction false} EncodePartsAppend(a: seq<string>, b: seq<string>)
    ensures EncodeParts(a + b) == EncodeParts(a) + EncodeParts(b)
  {
    if a == [] {
      assert a + b == b;
    } else {
      assert (a + b)[0] == a[0] && (a + b)[1..] == a[1..] + b;
      EncodePartsAppend(a[1..], b);
      calc {
        EncodeParts(a + b);
        EncodeLabel(a[0]) + EncodeParts(a[1..] + b);
        EncodeLabel(a[0]) + (EncodeParts(a[1..]) + EncodeParts(b));
        (EncodeLabel(a[0]) + EncodeParts(a[1..])) + EncodeParts(b);
      }
    }
  }

  /** Every byte of the text plus one length byte per part minus one byte per
      '.': the encoded name is one byte longer than the text's UTF-8 form. */
  lemma {:induction false} EncodedLength(name: string)
    ensures |Encode(name)| == |GetBytes(name)| + 1
  {
    if name != [] {
      var rest := Split(name[1..]);
      EncodedLength(name[1..]);
      if name[0] == '.' {
        assert ([[]] + rest)[1..] == rest;
      } else {
        var first := [name[0]] + rest[0];
        assert first[0] == name[0] && first[1..] == rest[0];
        assert ([first] + rest[1..])[1..] == rest[1..];
        assert EncodeParts(rest) == EncodeLabel(rest[0]) + EncodeParts(rest[1..]);
      }
    }
  }

  /** Prepends text to a successful name read. */
  function Prefixed(prefix: string, r: Result<(string, int)>): Result<(string, int)> {
    match r
    case Failure(e) => Failure(e)
    case Success(v) => Success((prefix + v.0, v.1))
  }

  lemma PrefixedTwice(a: string, b: string, r: Result<(string, int)>)
    ensures Prefixed(a, Prefixed(b, r)) == Prefixed(a + b, r)
  {
    if r.Success? {
      assert a + (b + r.value.0) == (a + b) + r.value.0;
    }
  }

  /** The bytes of the label whose length byte is at `index`: that many
      bytes after it, cut short at the end of the buffer. */
  function LabelBytes(message: seq<Byte>, index: nat): seq<Byte>
    requires index < |message|
  {
    var end := index + 1 + message[index];
    message[index + 1..if end <= |message| then end else |message|]
  }

  /** `LabelBytes` is what `Skip(index + 1).Take(message[index])` reads. */
  lemma LabelBytesIsSkipTake(message: seq<Byte>, index: nat)
    requires index < |message|
    ensures LabelBytes(message, index) == Take(Skip(message, index + 1), message[index])
  {
    SkipTake(message, index + 1, message[index]);
  }

  /** The label loop of `Parse` from `index`: each length byte is followed by
      that many bytes of text (cut short by `Take` at the end of the buffer),
      and the loop stops at a zero byte, whose index it returns. Reading
      `message[index]` outside the buffer throws. */
  function Decode(message: seq<Byte>, index: int): (r: Result<(string, int)>)
    ensures r.Success? ==> 0 <= index <= r.value.1 < |message| && message[r.value.1] == 0
    ensures r.Failure? ==> r.error.IndexOutOfRange?
    decreases |message| - index
  {
    if index < 0 || index >= |message| then Failure(IndexOutOfRange(index))
    else if message[index] == 0 then Success(([], index))
    else
      var text := ToString(LabelBytes(message, index));
      Prefixed(text + ".", Decode(message, index + message[index] + 1))
  }

  /** One turn of the label loop. */
  lemma DecodeStep(message: seq<Byte>, index: int)
    requires 0 <= index < |message| && message[index] != 0
    ensures Decode(message, index)
      == Prefixed(ToString(Take(Skip(message, index + 1), message[index])) + ".",
                  Decode(message, index + message[index] + 1))
  {
    LabelBytesIsSkipTake(message, index);
  }

  /** `Parse`'s name loop, as written: a `StringBuilder` grows label by label
      while `index` advances over each label. */
  method Read(message: seq<Byte>, start: int) returns (r: Result<(string, int)>)
    ensures r == Decode(message, start)
  {
    var index := start;
    var name := "";
    assert Decode(message, start) == Prefixed(name, Decode(message, index)) by {
      var d := Decode(message, start);
      if d.Success? { assert "" + d.value.0 == d.value.0; }
    }
    while true
      invariant Decode(message, start) == Prefixed(name, Decode(message, index))
      decreases |message| - index
    {
      if index < 0 || index >= |message| {
        return Failure(IndexOutOfRange(index));
      }
      if message[index] == 0 {
        break;
      }
      var text := ToString(Take(Skip(message, index + 1), message[index]));
      var after := index + message[index] + 1;
      assert Decode(message, start) == Prefixed(name + text + ".", Decode(message, after)) by {
        DecodeStep(message, index);
        PrefixedTwice(name, text + ".", Decode(message, after));
        assert name + text + "." == name + (text + ".");
      }
      name := name + text;
      name := name + ".";
      index := after;
    }
    assert name + "" == name;
    return Success((name, index));
  }

  /** One more part adds its length byte and its bytes. */
  lemma EncodedPrefix(parts: seq<string>, i: nat)
    requires i < |parts|
    ensures EncodeParts(parts[..i + 1]) == EncodeParts(parts[..i]) + EncodeLabel(parts[i])
  {
    assert parts[..i + 1] == parts[..i] + [parts[i]];
    EncodePartsAppend(parts[..i], [parts[i]]);
    assert EncodeParts([parts[i]]) == EncodeLabel(parts[i]) + [];
  }

  /** `GetBytes`'s name loop, as written: a length byte and the bytes of every
      '.'-separated part, appended to a byte list. */
  method Write(name: string) returns (bytes: seq<Byte>)
    ensures bytes == Encode(name)
  {
    var parts := Split(name);
    bytes := [];
    for i := 0 to |parts|
      invariant bytes == EncodeParts(parts[..i])
    {
      var partAsBytes := GetBytes(parts[i]);
      EncodedPrefix(parts, i);
      bytes := bytes + [|partAsBytes| % 0x100];
      bytes := bytes + partAsBytes;
    }
    assert parts[..|parts|] == parts;
  }

  /** A byte of 0xC0 or more is a compression pointer in section 4.1.4 of
      RFC 1035; here it is a label length like any other, so a pointer whose
      would-be label runs past the end of the buffer makes the read fail. */
  lemma PointerIsLength(message: seq<Byte>, index: int)
    requires 0 <= index < |message| && message[index] >= 0xC0
    ensures Decode(message, index)
      == Prefixed(ToString(Take(Skip(message, index + 1), message[index])) + ".",
                  Decode(message, index + message[index] + 1))
    ensures |message| <= index + message[index] + 1 ==> Decode(message, index).Failure?
  {
    DecodeStep(message, index);
  }

  /** A label whose length byte `n` fits in the buffer is read from exactly
      the `n` bytes after it. */
  lemma FittingLabel(m: seq<Byte>, at: nat, n: nat)
    requires at + 1 + n <= |m| && m[at] == n && n != 0
    ensures Decode(m, at) == Prefixed(ToString(m[at + 1..at + 1 + n]) + ".", Decode(m, at + 1 + n))
  {
  }

  /** The first of the labels laid out at `at` is read, then the rest. */
  lemma FirstLabel(m: seq<Byte>, at: nat, labels: seq<string>)
    requires labels != [] && LabelsAt(m, at, labels)
    ensures Decode(m, at) == Prefixed(labels[0] + ".", Decode(m, at + 1 + |labels[0]|))
  {
    FittingLabel(m, at, |labels[0]|);
  }

  /** The bytes of a sequence of labels and the terminator, in the form
      the reader consumes them, start at `at` in `m`. */
  predicate LabelsAt(m: seq<Byte>, at: nat, labels: seq<string>)
    decreases labels
  {
    if labels == [] then at < |m| && m[at] == 0
    else
      var n := |labels[0]|;
      && at + 1 + n <= |m| && m[at] == n && n != 0
      && ToString(m[at + 1..at + 1 + n]) == labels[0]
      && LabelsAt(m, at + 1 + n, labels[1..])
  }

  /** The number of bytes `LabelsAt` covers. */
  function LabelsLength(labels: seq<string>): nat {
    if labels == [] then 1 else 1 + |labels[0]| + LabelsLength(labels[1..])
  }

  /** The reader turns labels laid out at `at` into their dotted form. */
  lemma {:induction false} DecodeLabels(m: seq<Byte>, at: nat, labels: seq<string>)
    requires LabelsAt(m, at, labels)
    ensures Decode(m, at) == Success((Dotted(labels), at + LabelsLength(labels) - 1))
    decreases labels
  {
    if labels == [] {
      assert Decode(m, at) == Success(([], at));
    } else {
      var n := |labels[0]|;
      var next := at + 1 + n;
      var end := next + LabelsLength(labels[1..]) - 1;
      assert Decode(m, next) == Success((Dotted(labels[1..]), end)) by {
        DecodeLabels(m, next, labels[1..]);
      }
      FirstLabel(m, at, labels);
      assert Dotted(labels) == labels[0] + "." + Dotted(labels[1..]);
    }
  }

  /** The labels of a name and its terminator, as `EncodeParts` writes
      them when the final part is empty. */
  function EncodeLabels(labels: seq<string>): seq<Byte> {
    if labels == [] then [0] else EncodeLabel(labels[0]) + EncodeLabels(labels[1..])
  }

  /** The final empty part is written as the terminator. */
  lemma {:induction false} PartsAreLabels(labels: seq<string>)
    ensures EncodeParts(labels + [[]]) == EncodeLabels(labels)
  {
    if labels == [] {
      assert labels + [[]] == [[]];
    } else {
      assert (labels + [[]])[1..] == labels[1..] + [[]];
      PartsAreLabels(labels[1..]);
    }
  }

  /** The terminator alone is a zero byte. */
  lemma EncodedEnd(m: seq<Byte>, at: nat)
    requires At(m, at, EncodeLabels([]))
    ensures LabelsAt(m, at, []) && |EncodeLabels([])| == 1
  {
    assert m[at + 0] == EncodeLabels([])[0];
  }

  /** A label is written as its length byte, then its bytes. */
  lemma EncodedLabel(l: string)
    requires ValidLabel(l)
    ensures EncodeLabel(l) == [|l|] + GetBytes(l)
  {
    AsciiBytes(l);
    ByteCast(|GetBytes(l)|);
  }

  /** `(byte)n` keeps a count below 256 as it is. */
  lemma ByteCast(n: nat)
    requires n < 0x100
    ensures n % 0x100 == n
  {
  }

  /** The labels and terminator are the first label, then the rest. */
  lemma EncodedFirst(labels: seq<string>)
    requires labels != [] && ValidLabel(labels[0])
    ensures EncodeLabels(labels) == [|labels[0]|] + GetBytes(labels[0]) + EncodeLabels(labels[1..])
  {
    EncodedLabel(labels[0]);
  }

  /** A length byte, then that many bytes, then the rest. */
  lemma LengthPrefixedAt(m: seq<Byte>, at: nat, n: Byte, bytes: seq<Byte>, tail: seq<Byte>)
    requires At(m, at, [n] + bytes + tail)
    ensures at + 1 + |bytes| <= |m| && m[at] == n
    ensures m[at + 1..at + 1 + |bytes|] == bytes
    ensures At(m, at + 1 + |bytes|, tail)
  {
    AtSplit(m, at, [n] + bytes, tail);
    AtSplit(m, at, [n], bytes);
    assert m[at + 0] == [n][0];
    AtSlice(m, at + 1, bytes);
  }

  /** A valid label is one byte per character, and reads back as itself. */
  lemma LabelText(l: string)
    requires ValidLabel(l)
    ensures |GetBytes(l)| == |l| && ToString(GetBytes(l)) == l
  {
    AsciiBytes(l);
    TextRoundTrip(l);
  }

  /** A label written as its length byte and bytes that read back as its
      text is read back as itself. */
  lemma EncodedLabelAt(m: seq<Byte>, at: nat, l: string, bytes: seq<Byte>, tail: seq<Byte>)
    requires |l| < 0x100 && |bytes| == |l| && ToString(bytes) == l
    requires At(m, at, [|l|] + bytes + tail)
    ensures at + 1 + |l| <= |m| && m[at] == |l|
    ensures ToString(m[at + 1..at + 1 + |l|]) == l
    ensures At(m, at + 1 + |l|, tail)
  {
    LengthPrefixedAt(m, at, |l|, bytes, tail);
  }

  /** Labels written at `at` are the first label's length byte and bytes
      there, then the rest. */
  lemma EncodedFirstSplit(m: seq<Byte>, at: nat, labels: seq<string>)
    requires labels != [] && ValidLabel(labels[0])
    requires At(m, at, EncodeLabels(labels))
    ensures At(m, at, [|labels[0]|] + GetBytes(labels[0]) + EncodeLabels(labels[1..]))
    ensures |EncodeLabels(labels)| == 1 + |labels[0]| + |EncodeLabels(labels[1..])|
  {
    EncodedFirst(labels);
    LabelText(labels[0]);
  }

  /** The first of the labels written at `at` is read back there, and the
      rest are written right after it. */
  lemma EncodedFirstAt(m: seq<Byte>, at: nat, labels: seq<string>)
    requires labels != [] && ValidLabel(labels[0])
    requires At(m, at, EncodeLabels(labels))
    ensures at + 1 + |labels[0]| <= |m| && m[at] == |labels[0]|
    ensures ToString(m[at + 1..at + 1 + |labels[0]|]) == labels[0]
    ensures At(m, at + 1 + |labels[0]|, EncodeLabels(labels[1..]))
    ensures |EncodeLabels(labels)| == 1 + |labels[0]| + |EncodeLabels(labels[1..])|
  {
    EncodedFirstSplit(m, at, labels);
    LabelText(labels[0]);
    EncodedLabelAt(m, at, labels[0], GetBytes(labels[0]), EncodeLabels(labels[1..]));
  }

  /** The writer lays valid labels out as the reader expects them. */
  lemma {:induction false} EncodedLabelsAt(m: seq<Byte>, at: nat, labels: seq<string>)
    requires forall k :: 0 <= k < |labels| ==> ValidLabel(labels[k])
    requires At(m, at, EncodeLabels(labels))
    ensures LabelsAt(m, at, labels)
    ensures |EncodeLabels(labels)| == LabelsLength(labels)
    decreases labels
  {
    if labels == [] {
      EncodedEnd(m, at);
    } else {
      EncodedFirstAt(m, at, labels);
      EncodedLabelsAt(m, at + 1 + |labels[0]|, labels[1..]);
    }
  }

  /** The labels of a name: every '.'-separated part but the last. */
  function Labels(name: string): seq<string> {
    var parts := Split(name);
    parts[..|parts| - 1]
  }

  /** A valid name is written as the labels before its final empty part,
      and those labels, dotted, give the name back. */
  lemma EncodedLabels(name: string)
    requires ValidName(name)
    ensures Encode(name) == EncodeLabels(Labels(name))
    ensures Dotted(Labels(name)) == name
  {
    var parts := Split(name);
    var labels := parts[..|parts| - 1];
    assert parts == labels + [[]];
    PartsAreLabels(labels);
    UnsplitSplit(name);
    UnsplitDotted(labels);
  }

  /** Round trip at any offset: wherever the encoding of a valid name sits in
      a message, it decodes to the name, and the returned index is that of
      its last byte, the terminator. */
  lemma DecodeAt(m: seq<Byte>, at: nat, name: string)
    requires ValidName(name)
    requires At(m, at, Encode(name))
    ensures Decode(m, at) == Success((name, at + |Encode(name)| - 1))
  {
    EncodedLabels(name);
    EncodedLabelsAt(m, at, Labels(name));
    DecodeLabels(m, at, Labels(name));
  }
}
