/**
 One volume, two names: its SCSI id (NAA IEEE Registered Extended, section 7.8.6.6.5 of SPC-4) and the NGUID
 it has over NVMe, and the conversions between them.
 */
module VolumeIds {
  import opened Options

  const WWN_OUI_END := 7
  const WWN_VENDOR_IDENTIFIER_END := 16
  const NGUID_OUI_END := 22
  const VENDOR_IDENTIFIER_LENGTH := 9
  const ID_LENGTH := 32

  /** `s[i:j]` for non-negative bounds: Python cuts them to the length. */
  function Slice(s: string, i: nat, j: nat): string
    requires i <= j
  {
    if |s| <= i then "" else if |s| <= j then s[i..] else s[i..j]
  }

  /** `s[-n:]`. */
  function Last(s: string, n: nat): string {
    if |s| <= n then s else s[|s| - n..]
  }

  function ConvertScsiIdToNguid(id: string): string {
    Slice(id, WWN_VENDOR_IDENTIFIER_END, if |id| < WWN_VENDOR_IDENTIFIER_END then WWN_VENDOR_IDENTIFIER_END else |id|)
    + Slice(id, 1, WWN_OUI_END) + "0" + Slice(id, WWN_OUI_END, WWN_VENDOR_IDENTIFIER_END)
  }

  function ConvertNguidToScsiId(id: string): string {
    Slice(id, WWN_VENDOR_IDENTIFIER_END, NGUID_OUI_END) + Last(id, VENDOR_IDENTIFIER_LENGTH)
    + Slice(id, 0, WWN_VENDOR_IDENTIFIER_END)
  }

  /** The array finds a volume by the id given, or else by the NGUID that id converts to. */
  function Resolve<T>(volumes: map<string, T>, id: string): Option<string> {
    if id in volumes then Some(id)
    else if ConvertScsiIdToNguid(id) in volumes then Some(ConvertScsiIdToNguid(id))
    else None
  }

  /** `text.find(part) >= 0`. */
  predicate Contains(text: string, part: string) {
    exists k :: 0 <= k <= |text| - |part| && text[k..][..|part|] == part
  }

  /** It is contained where the text is it with something before and after. */
  lemma ContainsExactly(text: string, part: string)
    ensures Contains(text, part) <==> exists before, after :: text == before + part + after
  {
    if Contains(text, part) {
      var k :| 0 <= k <= |text| - |part| && text[k..][..|part|] == part;
      assert text == text[..k] + part + text[k + |part|..];
    }
    if before, after :| text == before + part + after {
      var k := |before|;
      assert text[k..][..|part|] == part;
    }
  }

  /** A slice has the characters from i on, as many as there are before j and before the end. */
  lemma SliceExactly(s: string, i: nat, j: nat)
    requires i <= j
    ensures var end := if j < |s| then j else |s|;
      && |Slice(s, i, j)| == (if i < end then end - i else 0)
      && forall k :: 0 <= k < |Slice(s, i, j)| ==> Slice(s, i, j)[k] == s[i + k]
  {
  }

  lemma LastExactly(s: string, n: nat)
    ensures |Last(s, n)| == (if n < |s| then n else |s|)
    ensures forall k :: 0 <= k < |Last(s, n)| ==> Last(s, n)[k] == s[|s| - |Last(s, n)| + k]
  {
  }

  /** Where the parts of a SCSI id go in its NGUID: the extension first, then the OUI, a zero, and the vendor's own. */
  lemma NguidLayout(id: string)
    requires FullLength(id)
    ensures var nguid := ConvertScsiIdToNguid(id);
      && |nguid| == 32 && nguid[..16] == id[16..] && nguid[16..22] == id[1..7] && nguid[22] == '0'
      && nguid[23..] == id[7..16]
  {
  }

  predicate FullLength(id: string) {
    |id| == ID_LENGTH
  }

  /** Converting there and back loses the first character, the NAA digit, and nothing else. */
  lemma ScsiIdThroughNguid(id: string)
    requires FullLength(id)
    ensures FullLength(ConvertScsiIdToNguid(id))
    ensures ConvertNguidToScsiId(ConvertScsiIdToNguid(id)) == id[1..]
  {
    var nguid := ConvertScsiIdToNguid(id);
    assert nguid == id[16..] + id[1..7] + "0" + id[7..16];
    assert nguid[16..22] == id[1..7] && nguid[23..] == id[7..16] && nguid[..16] == id[16..];
    assert id[1..] == id[1..7] + id[7..16] + id[16..];
  }

  /** The other way round nothing is lost if the character the NGUID form inserts is the zero it inserts. */
  lemma NguidThroughScsiId(naa: char, nguid: string)
    requires FullLength(nguid)
    ensures ConvertScsiIdToNguid([naa] + ConvertNguidToScsiId(nguid)) == nguid <==> nguid[22] == '0'
  {
    var body := ConvertNguidToScsiId(nguid);
    assert body == nguid[16..22] + nguid[23..] + nguid[..16];
    var id := [naa] + body;
    assert id[16..] == nguid[..16] && id[1..7] == nguid[16..22] && id[7..16] == nguid[23..];
    var back := ConvertScsiIdToNguid(id);
    assert back == nguid[..16] + nguid[16..22] + "0" + nguid[23..];
    assert back[22] == '0';
    if nguid[22] == '0' {
      assert nguid[22..23] == "0";
      assert nguid == nguid[..16] + nguid[16..22] + nguid[22..23] + nguid[23..];
    }
  }

  /** In a full-length id the 31-character test can succeed at two places only. */
  lemma ContainedAtTwoPlaces(text: string, id: string)
    requires FullLength(text) && FullLength(id)
    ensures Contains(text, ConvertNguidToScsiId(id)) <==>
            text[1..] == ConvertNguidToScsiId(id) || text[..31] == ConvertNguidToScsiId(id)
  {
    var part := ConvertNguidToScsiId(id);
    assert |part| == 31;
    assert text[1..][..31] == text[1..] && text[0..][..31] == text[..31];
  }

  /** Over ids of full length the test recognises exactly the volume's own NGUID, or one of two accidents. */
  lemma ContainedMeansOwnNguid(text: string, id: string)
    requires FullLength(text) && FullLength(id)
    ensures Contains(text, ConvertNguidToScsiId(id)) <==>
            || id == ConvertScsiIdToNguid(text)
            || (text[1..] == ConvertNguidToScsiId(id) && id[22] != '0')
            || text[..31] == ConvertNguidToScsiId(id)
  {
    ContainedAtTwoPlaces(text, id);
    ScsiIdThroughNguid(text);
    if text[1..] == ConvertNguidToScsiId(id) && id[22] == '0' {
      NguidThroughScsiId(text[0], id);
      assert [text[0]] + text[1..] == text;
    }
  }
}
