/**
 * The key exports of an accessory's context menu (`HaystackApp/Views/AccessoryListEntry.swift`):
 * the texts put on the pasteboard, byte by byte in hexadecimal or as Base64. The pasteboard
 * itself is not modelled; each export is the text it would receive.
 */
module AccessoryListEntry {
  import opened Common
  import Strings
  import Numerals
  import Base64
  import Crypto
  import AccessoryModel

  /** `"\\x\(String(b, radix: 16))"`: a backslash, 'x', and the byte's unpadded lower-case hex digits. */
  function EscapedByte(b: byte): (t: string)
  {
    "\\x" + Numerals.ToHex(b)
  }

  /** Each byte's escape, in order. */
  function Escapes(bytes: seq<byte>): (escapes: seq<string>)
    ensures |escapes| == |bytes|
  {
    seq(|bytes|, i requires 0 <= i < |bytes| => EscapedByte(bytes[i]))
  }

  /** The escaped form: the bytes' escapes, concatenated. */
  function Escaped(bytes: seq<byte>): (t: string)
  {
    Strings.Concat(Escapes(bytes))
  }

  /** `"0x\(String(b, radix: 16))"`. */
  function HexLiteral(b: byte): (t: string)
  {
    "0x" + Numerals.ToHex(b)
  }

  /** Each byte's hex literal, in order. */
  function Literals(bytes: seq<byte>): (items: seq<string>)
    ensures |items| == |bytes|
  {
    seq(|bytes|, i requires 0 <= i < |bytes| => HexLiteral(bytes[i]))
  }

  /** `joined(separator: ", ")`. */
  function JoinComma(items: seq<string>): (t: string)
  {
    if |items| == 0 then ""
    else if |items| == 1 then items[0]
    else items[0] + ", " + JoinComma(items[1..])
  }

  /** The byte-array form: the bytes' hex literals, separated by ", ". */
  function ByteArrayLiteral(bytes: seq<byte>): (t: string)
  {
    JoinComma(Literals(bytes))
  }

  /**
   * `copyAdvertisementKey`: the advertisement key in the escaped or the byte-array form; nothing
   * is copied when the key cannot be derived.
   */
  function CopyAdvertisementKey(accessory: AccessoryModel.Accessory, suite: Crypto.Suite, escapedString: bool): (r: Option<string>)
    ensures r.Some? <==> accessory.GetAdvertisementKey(suite).Ok?
  {
    match accessory.GetAdvertisementKey(suite)
    case Err(_) => None
    case Ok(publicKey) => Some(if escapedString then Escaped(publicKey) else ByteArrayLiteral(publicKey))
  }

  /** The two-line layout shared by both combined exports. */
  function KeysText(symmetricKeyString: string, publicKeyString: string): string
  {
    "Symmetric key: " + symmetricKeyString + "\n Uncompressed public key: " + publicKeyString + " "
  }

  /**
   * `copySymmetricAndPublicKey`: both keys escaped. The symmetric key and the uncompressed public
   * key come from the key-derivation state, which is not part of this model, so they are inputs.
   */
  function SymmetricAndPublicKey(symmetricKey: seq<byte>, publicKey: seq<byte>): string
  {
    KeysText(Escaped(symmetricKey), Escaped(publicKey))
  }

  /** `copySymmetricAndPublicKeyBase64`: the same layout with both keys in Base64. */
  function SymmetricAndPublicKeyBase64(symmetricKey: seq<byte>, publicKey: seq<byte>): string
  {
    KeysText(Base64.Encode(symmetricKey), Base64.Encode(publicKey))
  }

  /** `copyPrivateKey`: the stored private key in Base64. */
  function CopyPrivateKey(accessory: AccessoryModel.Accessory): string
  {
    Base64.Encode(accessory.privateKey)
  }

  // ---------------------------------------------------------------------------
  // Reading the exports back

  /** The bytes of escapes split at their backslashes: each part 'x' and one or two hex digits. */
  function UnescapeParts(parts: seq<string>): (r: Option<seq<byte>>)
    ensures r.Some? ==> |r.value| == |parts|
  {
    if parts == [] then Some([])
    else
      var p := parts[0];
      if !(2 <= |p| <= 3 && p[0] == 'x' && Numerals.AllHexDigits(p[1..]) && Numerals.HexValue(p[1..]) < 256) then None
      else match UnescapeParts(parts[1..])
        case None => None
        case Some(rest) => Some([Numerals.HexValue(p[1..]) as byte] + rest)
  }

  /** A byte's escape without its backslash. */
  function EscapePart(b: byte): string
  {
    "x" + Numerals.ToHex(b)
  }

  function EscapeParts(bytes: seq<byte>): (parts: seq<string>)
    ensures |parts| == |bytes|
  {
    seq(|bytes|, i requires 0 <= i < |bytes| => EscapePart(bytes[i]))
  }

  /** The escapes are the parts joined by backslashes, behind a leading backslash. */
  lemma {:induction false} EscapedAsJoin(bytes: seq<byte>)
    requires bytes != []
    ensures Escaped(bytes) == "\\" + Strings.Join(EscapeParts(bytes), '\\')
  {
    var escapes := Escapes(bytes);
    var parts := EscapeParts(bytes);
    assert escapes[0] == "\\" + parts[0];
    if |bytes| > 1 {
      EscapedAsJoin(bytes[1..]);
      assert escapes[1..] == Escapes(bytes[1..]);
      assert parts[1..] == EscapeParts(bytes[1..]);
    } else {
      assert escapes[1..] == [];
      assert Strings.Concat(escapes) == escapes[0] + Strings.Concat([]);
      assert Strings.Join(parts, '\\') == parts[0];
    }
  }

  lemma ToHexOfByte(b: byte)
    ensures 1 <= |Numerals.ToHex(b)| <= 2 && '\\' !in Numerals.ToHex(b) && ',' !in Numerals.ToHex(b)
    ensures Numerals.HexValue(Numerals.ToHex(b)) == b as int
  {
    Numerals.ToHexByteLength(b);
    Numerals.ToHexValue(b);
  }

  lemma {:induction false} UnescapePartsOf(bytes: seq<byte>)
    ensures UnescapeParts(EscapeParts(bytes)) == Some(bytes)
  {
    var parts := EscapeParts(bytes);
    if bytes != [] {
      ToHexOfByte(bytes[0]);
      assert parts[0][1..] == Numerals.ToHex(bytes[0]);
      UnescapePartsOf(bytes[1..]);
      assert parts[1..] == EscapeParts(bytes[1..]);
      assert bytes == [bytes[0]] + bytes[1..];
    }
  }

  /** Splitting the escaped form at its backslashes and reading each part's hex digits gives the bytes back. */
  lemma UnescapeEscaped(bytes: seq<byte>)
    ensures UnescapeParts(Strings.Split(Escaped(bytes), '\\')) == Some(bytes)
  {
    var parts := EscapeParts(bytes);
    if bytes == [] {
      assert Escaped(bytes) == "";
    } else {
      EscapedAsJoin(bytes);
      forall i | 0 <= i < |parts|
        ensures parts[i] != [] && '\\' !in parts[i]
      {
        ToHexOfByte(bytes[i]);
      }
      Strings.SplitOfLeadingSep(Strings.Join(parts, '\\'), '\\');
      Strings.SplitJoin(parts, '\\');
    }
    UnescapePartsOf(bytes);
  }

  /** Each byte's escape takes three characters below 16 and four otherwise. */
  lemma EscapedLength(bytes: seq<byte>, b: byte)
    ensures Escaped(bytes + [b]) == Escaped(bytes) + EscapedByte(b)
    ensures |EscapedByte(b)| == if b < 16 then 3 else 4
  {
    assert Escapes(bytes + [b]) == Escapes(bytes) + [EscapedByte(b)];
    Strings.ConcatAppend(Escapes(bytes), [EscapedByte(b)]);
    assert Strings.Concat([EscapedByte(b)]) == EscapedByte(b) + Strings.Concat([]);
    Numerals.ToHexByteLength(b);
  }

  /** The items, each behind a space. */
  function AllSpaced(items: seq<string>): (r: seq<string>)
    ensures |r| == |items|
  {
    seq(|items|, i requires 0 <= i < |items| => " " + items[i])
  }

  /** The items as `JoinComma` separates them at its commas: each after the first behind a space. */
  function Spaced(items: seq<string>): (r: seq<string>)
    ensures |r| == |items|
  {
    if items == [] then [] else [items[0]] + AllSpaced(items[1..])
  }

  /** Joining items that all carry a space puts one space before the spaced join. */
  lemma JoinAllSpaced(t: seq<string>)
    requires t != []
    ensures Strings.Join(AllSpaced(t), ',') == " " + Strings.Join(Spaced(t), ',')
  {
    if |t| > 1 {
      assert AllSpaced(t)[1..] == AllSpaced(t[1..]);
      assert Spaced(t)[1..] == AllSpaced(t[1..]);
    }
  }

  /** `JoinComma` is a join at commas of the spaced items. */
  lemma {:induction false} JoinCommaAsJoin(items: seq<string>)
    ensures JoinComma(items) == Strings.Join(Spaced(items), ',')
  {
    if |items| > 1 {
      var t := items[1..];
      JoinCommaAsJoin(t);
      JoinAllSpaced(t);
      var spaced := Spaced(items);
      assert spaced[0] == items[0];
      assert spaced[1..] == AllSpaced(t);
      calc {
        Strings.Join(spaced, ',');
        spaced[0] + [','] + Strings.Join(spaced[1..], ',');
        items[0] + [','] + (" " + Strings.Join(Spaced(t), ','));
        items[0] + ", " + JoinComma(t);
      }
    }
  }

  /** The byte-array form read back: its comma-separated items, each "0x" and hex digits after an optional space. */
  function ReadHexLiterals(parts: seq<string>): (r: Option<seq<byte>>)
    ensures r.Some? ==> |r.value| == |parts|
  {
    if parts == [] then Some([])
    else
      var p := if parts[0] != [] && parts[0][0] == ' ' then parts[0][1..] else parts[0];
      if !(3 <= |p| <= 4 && p[..2] == "0x" && Numerals.AllHexDigits(p[2..]) && Numerals.HexValue(p[2..]) < 256) then None
      else match ReadHexLiterals(parts[1..])
        case None => None
        case Some(rest) => Some([Numerals.HexValue(p[2..]) as byte] + rest)
  }

  lemma HexLiteralReads(b: byte, item: string)
    requires item == HexLiteral(b) || item == " " + HexLiteral(b)
    ensures item != [] && ',' !in item
    ensures ReadHexLiterals([item]) == Some([b])
  {
    ToHexOfByte(b);
    var p := HexLiteral(b);
    assert p[2..] == Numerals.ToHex(b) && p[..2] == "0x";
    assert p[0] == '0';
    var read := if item != [] && item[0] == ' ' then item[1..] else item;
    assert read == p;
    assert [item][1..] == [];
    assert ',' !in p;
    assert 3 <= |read| <= 4 && Numerals.AllHexDigits(read[2..]) && Numerals.HexValue(read[2..]) == b as int;
    assert ReadHexLiterals([item][1..]) == Some([]);
    assert [item][0] == item;
    assert read[..2] == "0x";
    assert [Numerals.HexValue(read[2..]) as byte] + [] == [b];
  }

  lemma {:induction false} ReadAllSpaced(bytes: seq<byte>)
    ensures ReadHexLiterals(AllSpaced(Literals(bytes))) == Some(bytes)
  {
    var parts := AllSpaced(Literals(bytes));
    if bytes != [] {
      HexLiteralReads(bytes[0], parts[0]);
      ReadAllSpaced(bytes[1..]);
      assert parts[1..] == AllSpaced(Literals(bytes[1..]));
      assert bytes == [bytes[0]] + bytes[1..];
    }
  }

  /**
   * The byte-array form has one item per byte: splitting it at its commas and reading each item's
   * hex digits gives the bytes back (a 28-byte key gives 28 items).
   */
  lemma ByteArrayLiteralItems(bytes: seq<byte>)
    ensures ReadHexLiterals(Strings.Split(ByteArrayLiteral(bytes), ',')) == Some(bytes)
  {
    var parts := Spaced(Literals(bytes));
    JoinCommaAsJoin(Literals(bytes));
    if bytes != [] {
      forall i | 0 <= i < |parts|
        ensures parts[i] != [] && ',' !in parts[i]
      {
        HexLiteralReads(bytes[i], parts[i]);
      }
      Strings.SplitJoin(parts, ',');
      HexLiteralReads(bytes[0], parts[0]);
      ReadAllSpaced(bytes[1..]);
      assert Literals(bytes)[1..] == Literals(bytes[1..]);
      assert bytes == [bytes[0]] + bytes[1..];
    } else {
      assert Strings.Split("", ',') == [];
    }
  }

  /** No export text contains a line break of its own. */
  lemma {:induction false} Base64HasNoNewline(s: seq<byte>)
    ensures '\n' !in Base64.Encode(s)
    decreases |s|
  {
    if |s| >= 3 {
      Base64HasNoNewline(s[3..]);
    }
  }

  lemma EscapedHasNoNewline(bytes: seq<byte>)
    ensures '\n' !in Escaped(bytes)
  {
    if bytes != [] {
      EscapedAsJoin(bytes);
      var parts := EscapeParts(bytes);
      forall i | 0 <= i < |parts|
        ensures '\n' !in parts[i]
      {
        assert Numerals.AllHexDigits(Numerals.ToHex(bytes[i]));
      }
      JoinHasNo(parts, '\\', '\n');
    }
  }

  lemma {:induction false} JoinHasNo(parts: seq<string>, sep: char, c: char)
    requires c != sep && forall i :: 0 <= i < |parts| ==> c !in parts[i]
    ensures c !in Strings.Join(parts, sep)
  {
    if |parts| > 1 {
      JoinHasNo(parts[1..], sep, c);
    }
  }

  /** The combined text's two lines give back the two key strings. */
  lemma KeysTextLines(s: string, p: string)
    requires '\n' !in s && '\n' !in p
    ensures Strings.Split(KeysText(s, p), '\n') == ["Symmetric key: " + s, " Uncompressed public key: " + p + " "]
  {
    var lines := ["Symmetric key: " + s, " Uncompressed public key: " + p + " "];
    assert KeysText(s, p) == Strings.Join(lines, '\n');
    Strings.SplitJoin(lines, '\n');
  }

  /** Both combined exports put the symmetric key on the first line and the public key on the second. */
  lemma CombinedExportsLines(symmetricKey: seq<byte>, publicKey: seq<byte>)
    ensures Strings.Split(SymmetricAndPublicKey(symmetricKey, publicKey), '\n') ==
      ["Symmetric key: " + Escaped(symmetricKey), " Uncompressed public key: " + Escaped(publicKey) + " "]
    ensures Strings.Split(SymmetricAndPublicKeyBase64(symmetricKey, publicKey), '\n') ==
      ["Symmetric key: " + Base64.Encode(symmetricKey), " Uncompressed public key: " + Base64.Encode(publicKey) + " "]
  {
    EscapedHasNoNewline(symmetricKey);
    EscapedHasNoNewline(publicKey);
    KeysTextLines(Escaped(symmetricKey), Escaped(publicKey));
    Base64HasNoNewline(symmetricKey);
    Base64HasNoNewline(publicKey);
    KeysTextLines(Base64.Encode(symmetricKey), Base64.Encode(publicKey));
  }

  /** The private-key export decodes to the stored private key. */
  lemma PrivateKeyExportRoundTrip(accessory: AccessoryModel.Accessory)
    ensures Base64.Decode(CopyPrivateKey(accessory)) == accessory.privateKey
  {
    Base64.DecodeEncode(accessory.privateKey);
  }
}
