/** The publish context: filled in by the controller (Python), read back by the node agent (Go). */
module PublishContext {
  import opened Options
  import opened Text

  type Context = map<string, string>

  /** Parameter names, separator and connectivity names from the shared configuration file. */
  datatype Config = Config(
    lunKey: string, connectivityKey: string, fcKey: string, iqnKey: string, serialKey: string, nvmeKey: string,
    separator: char, fc: string, iscsi: string, nvmeOverRoce: string, nvmeOverFc: string)
  {
    /** No two parameters and no two connectivity types share a name, and no parameter is nameless. */
    predicate Distinct() {
      && lunKey !in {connectivityKey, fcKey, iqnKey, serialKey, nvmeKey, ""}
      && connectivityKey !in {fcKey, iqnKey, serialKey, nvmeKey, ""}
      && fcKey !in {iqnKey, serialKey, nvmeKey, ""}
      && iqnKey !in {serialKey, nvmeKey, ""} && serialKey !in {nvmeKey, ""} && nvmeKey != ""
      && fc !in {iscsi, nvmeOverRoce, nvmeOverFc} && iscsi !in {nvmeOverRoce, nvmeOverFc}
      && nvmeOverRoce != nvmeOverFc
    }

    predicate IsTargetType(connectivity: string) {
      connectivity == iscsi || connectivity == nvmeOverRoce
    }
  }

  /** The names of the shipped configuration. */
  const SHIPPED := Config(
    "PUBLISH_CONTEXT_LUN", "PUBLISH_CONTEXT_CONNECTIVITY", "PUBLISH_CONTEXT_ARRAY_FC_INITIATORS",
    "PUBLISH_CONTEXT_ARRAY_IQN", "PUBLISH_CONTEXT_ARRAY_SERIAL", "PUBLISH_CONTEXT_ARRAY_NVME_INITIATORS",
    ',', "fc", "iscsi", "nvmeoroce", "nvmeofc")

  lemma ShippedNamesAreDistinct()
    ensures SHIPPED.Distinct()
  {
    assert SHIPPED.connectivityKey[16] != SHIPPED.serialKey[16];
  }

  /** One entry of the dictionary of iSCSI or RoCE targets. */
  datatype Target = Target(name: string, ips: seq<string>)

  const SERIAL := "ARRAY_SERIAL_PARAM"

  // ----- the controller

  /** `str(lun)`; a volume mapped without a LUN has the empty text. */
  function LunText(lun: Option<nat>): string {
    if lun.Some? then Decimal(lun.value) else ""
  }

  function Base(c: Config, lun: Option<nat>, connectivity: string): Context {
    map[c.lunKey := LunText(lun), c.connectivityKey := connectivity]
  }

  function WithTarget(c: Config, context: Context, t: Target): Context {
    context[(if t.name == SERIAL then c.serialKey else t.name) := Join(t.ips, c.separator)]
  }

  function WithTargets(c: Config, context: Context, targets: seq<Target>): Context {
    if targets == [] then context
    else WithTarget(c, WithTargets(c, context, targets[..|targets| - 1]), targets[|targets| - 1])
  }

  function Names(targets: seq<Target>): seq<string> {
    if targets == [] then []
    else
      var t := targets[|targets| - 1];
      Names(targets[..|targets| - 1]) + if t.name == SERIAL then [] else [t.name]
  }

  /** What the controller publishes; `ports` is used for Fibre Channel types and `targets` for the others. */
  function Published(
      c: Config, lun: Option<nat>, connectivity: string, ports: seq<string>, targets: seq<Target>): Context
  {
    var base := Base(c, lun, connectivity);
    if connectivity == c.fc then base[c.fcKey := Join(ports, c.separator)]
    else if c.IsTargetType(connectivity) then
      WithTargets(c, base, targets)[c.iqnKey := Join(Names(targets), c.separator)]
    else if connectivity == c.nvmeOverFc then base[c.nvmeKey := Join(ports, c.separator)]
    else base
  }

  /** `generate_csi_publish_volume_response`. */
  method GenerateCsiPublishVolumeResponse(
      c: Config, lun: Option<nat>, connectivity: string, ports: seq<string>, targets: seq<Target>)
    returns (context: Context)
    ensures context == Published(c, lun, connectivity, ports, targets)
  {
    context := map[c.lunKey := LunText(lun), c.connectivityKey := connectivity];
    if connectivity == c.fc {
      context := context[c.fcKey := Join(ports, c.separator)];
    } else if connectivity in [c.iscsi, c.nvmeOverRoce] {
      var iqns: seq<string> := [];
      for k := 0 to |targets|
        invariant context == WithTargets(c, Base(c, lun, connectivity), targets[..k]) && iqns == Names(targets[..k])
      {
        assert targets[..k + 1][..k] == targets[..k];
        if targets[k].name == SERIAL {
          context := context[c.serialKey := Join(targets[k].ips, c.separator)];
        } else {
          context := context[targets[k].name := Join(targets[k].ips, c.separator)];
          iqns := iqns + [targets[k].name];
        }
      }
      assert targets[..|targets|] == targets;
      context := context[c.iqnKey := Join(iqns, c.separator)];
    } else if connectivity == c.nvmeOverFc {
      context := context[c.nvmeKey := Join(ports, c.separator)];
    }
  }

  // ----- the node agent

  /** What the node agent reads; a nil list of addresses is the empty sequence. */
  datatype Info = Info(connectivity: string, lun: int, serial: string, ips: map<string, seq<string>>)

  /** A Go map answers a missing key with the empty text. */
  function Lookup(context: Context, key: string): string {
    if key in context then context[key] else ""
  }

  const MAX_INT64: int := 0x7FFF_FFFF_FFFF_FFFF

  /** `strconv.Atoi`. */
  function Atoi(s: string): Option<int> {
    if s == "" then None
    else
      var signed := s[0] == '-' || s[0] == '+';
      match ParseNumeral(if signed then s[1..] else s, 10)
      case None => None
      case Some(n) =>
        if s[0] == '-' then (if n <= MAX_INT64 + 1 then Some(0 - n as int) else None)
        else if n <= MAX_INT64 then Some(n) else None
  }

  /** A sign is read with the digits after it, and what does not fit 64 bits is an error. */
  lemma AtoiReadsSignedNumbers(n: nat)
    ensures Atoi("-" + Decimal(n)) == if n <= 0x8000_0000_0000_0000 then Some(0 - n as int) else None
    ensures Atoi("+" + Decimal(n)) == if n <= 0x7FFF_FFFF_FFFF_FFFF then Some(n) else None
    ensures Atoi(Decimal(n)) == if n <= 0x7FFF_FFFF_FFFF_FFFF then Some(n) else None
    ensures Atoi("") == Atoi("-") == Atoi("+") == None
  {
    NumeralRoundTrip(n, 10);
    NumeralHasNoSign(n);
    var text := Decimal(n);
    hide DigitsValue, ParseNumeral, Numeral;
    NoNumeralIsEmpty();
    AtoiOf('-', text, n);
    AtoiOf('+', text, n);
  }

  lemma NoNumeralIsEmpty()
    ensures ParseNumeral("", 10) == None
  {
  }

  lemma AtoiOf(sign: char, text: string, n: nat)
    requires (sign == '-' || sign == '+') && ParseNumeral(text, 10) == Some(n)
    ensures Atoi([sign] + text) ==
      if sign == '-' then (if n <= MAX_INT64 + 1 then Some(0 - n as int) else None)
      else if n <= MAX_INT64 then Some(n) else None
  {
    hide DigitsValue, ParseNumeral;
    assert ([sign] + text)[1..] == text;
  }

  /** The characters that Unicode gives the White_Space property, by their numbers. */
  lemma SpacesExactly(c: char)
    ensures IsSpace(c) <==>
      || 9 <= c as int <= 13 || 0x2000 <= c as int <= 0x200A
      || c as int in {0x20, 0x85, 0xA0, 0x1680, 0x2028, 0x2029, 0x202F, 0x205F, 0x3000}
  {
  }

  predicate IsSpace(c: char) {
    || c in {' ', '\t', '\n', '\r', '\U{B}', '\U{C}', '\U{85}', '\U{A0}', '\U{1680}'}
    || '\U{2000}' <= c <= '\U{200A}'
    || c in {'\U{2028}', '\U{2029}', '\U{202F}', '\U{205F}', '\U{3000}'}
  }

  /** `strings.TrimSpace`. */
  function TrimSpace(s: string): (t: string)
    ensures t == "" || (!IsSpace(t[0]) && !IsSpace(t[|t| - 1]))
    decreases |s|
  {
    if s == "" then ""
    else if IsSpace(s[0]) then TrimSpace(s[1..])
    else if IsSpace(s[|s| - 1]) then TrimSpace(s[..|s| - 1])
    else s
  }

  function PortMap(ports: seq<string>): map<string, seq<string>> {
    map p | p in ports :: []
  }

  /** The addresses of the listed initiators that the context has an entry for. */
  function TargetIps(context: Context, iqns: seq<string>, sep: char): map<string, seq<string>> {
    map q | q in iqns && q in context :: Split(context[q], sep)
  }

  function Trimmed(ports: seq<string>): map<string, seq<string>> {
    map p | p in ports && TrimSpace(p) != "" :: TrimSpace(p) := []
  }

  function IpsOf(c: Config, context: Context): map<string, seq<string>> {
    var connectivity := Lookup(context, c.connectivityKey);
    if connectivity == c.fc then PortMap(Split(Lookup(context, c.fcKey), c.separator))
    else if c.IsTargetType(connectivity) then
      TargetIps(context, Split(Lookup(context, c.iqnKey), c.separator), c.separator)
    else if connectivity == c.nvmeOverFc then Trimmed(Split(Lookup(context, c.nvmeKey), c.separator))
    else map[]
  }

  /** None stands for the error of a LUN that is not a number. */
  function InfoOf(c: Config, context: Context): Option<Info> {
    var lunText := Lookup(context, c.lunKey);
    var lun := if lunText == "" then Some(-1) else Atoi(lunText);
    if lun.None? then None
    else Some(Info(Lookup(context, c.connectivityKey), lun.value, Lookup(context, c.serialKey), IpsOf(c, context)))
  }

  lemma PortMapGrows(ports: seq<string>, k: nat)
    requires k < |ports|
    ensures PortMap(ports[..0]) == map[] && PortMap(ports[..|ports|]) == PortMap(ports)
    ensures PortMap(ports[..k + 1]) == PortMap(ports[..k])[ports[k] := []]
  {
    assert ports[..|ports|] == ports && ports[..k + 1] == ports[..k] + [ports[k]];
  }

  lemma TargetIpsGrows(context: Context, iqns: seq<string>, sep: char, k: nat)
    requires k < |iqns|
    ensures TargetIps(context, iqns[..0], sep) == map[]
    ensures TargetIps(context, iqns[..|iqns|], sep) == TargetIps(context, iqns, sep)
    ensures var before := TargetIps(context, iqns[..k], sep);
      TargetIps(context, iqns[..k + 1], sep) ==
      if iqns[k] in context then before[iqns[k] := Split(context[iqns[k]], sep)] else before
  {
    assert iqns[..|iqns|] == iqns && iqns[..k + 1] == iqns[..k] + [iqns[k]];
  }

  lemma TrimmedGrows(ports: seq<string>, k: nat)
    requires k < |ports|
    ensures Trimmed(ports[..0]) == map[] && Trimmed(ports[..|ports|]) == Trimmed(ports)
    ensures var port := TrimSpace(ports[k]);
      Trimmed(ports[..k + 1]) == if port == "" then Trimmed(ports[..k]) else Trimmed(ports[..k])[port := []]
  {
    hide TrimSpace;
    assert ports[..|ports|] == ports && ports[..k + 1] == ports[..k] + [ports[k]];
  }

  method GetInfoFromPublishContext(c: Config, context: Context) returns (info: Option<Info>)
    requires c.Distinct()
    ensures info == InfoOf(c, context)
  {
    hide PortMap, TargetIps, Trimmed, Split, TrimSpace;
    var ips: map<string, seq<string>> := map[];
    var lunText, serial := Lookup(context, c.lunKey), Lookup(context, c.serialKey);
    var lun := -1;
    if lunText != "" {
      var number := Atoi(lunText);
      if number.None? {
        return None;
      }
      lun := number.value;
    }
    var connectivity := Lookup(context, c.connectivityKey);
    if connectivity == c.fc {
      var wwns := Split(Lookup(context, c.fcKey), c.separator);
      PortMapGrows(wwns, 0);
      for k := 0 to |wwns|
        invariant ips == PortMap(wwns[..k])
      {
        PortMapGrows(wwns, k);
        ips := ips[wwns[k] := []];
      }
    }
    if connectivity == c.iscsi || connectivity == c.nvmeOverRoce {
      var iqns := Split(Lookup(context, c.iqnKey), c.separator);
      TargetIpsGrows(context, iqns, c.separator, 0);
      for k := 0 to |iqns|
        invariant ips == TargetIps(context, iqns[..k], c.separator)
      {
        TargetIpsGrows(context, iqns, c.separator, k);
        if iqns[k] in context {
          ips := ips[iqns[k] := Split(context[iqns[k]], c.separator)];
        }
      }
    }
    if connectivity == c.nvmeOverFc {
      var ports := Split(Lookup(context, c.nvmeKey), c.separator);
      TrimmedGrows(ports, 0);
      for k := 0 to |ports|
        invariant ips == Trimmed(ports[..k])
      {
        TrimmedGrows(ports, k);
        var port := TrimSpace(ports[k]);
        if port != "" {
          ips := ips[port := []];
        }
      }
    }
    info := Some(Info(connectivity, lun, serial, ips));
  }

  // ----- what the node agent reads is what the controller meant

  /** The LUNs the source can print: none, or a number that Go's integer holds. */
  predicate LunFits(lun: Option<nat>) {
    lun.Some? ==> lun.value <= MAX_INT64
  }

  function LunNumber(lun: Option<nat>): int {
    if lun.Some? then lun.value else -1
  }

  lemma LunTextReadsBack(lun: Option<nat>)
    requires LunFits(lun)
    ensures LunText(lun) == "" <==> lun.None?
    ensures lun.Some? ==> Atoi(LunText(lun)) == Some(lun.value)
  {
    if lun.Some? {
      NumeralRoundTrip(lun.value, 10);
      NumeralHasNoSign(lun.value);
    }
  }

  lemma {:induction false} NumeralHasNoSign(n: nat)
    ensures Decimal(n)[0] != '-' && Decimal(n)[0] != '+'
  {
    DigitRoundTrip(n % 10);
    if n >= 10 {
      NumeralHasNoSign(n / 10);
    } else {
      DigitRoundTrip(n);
    }
  }

  /** Fibre Channel: type, LUN and ports come back exactly when there are ports, all free of the separator. */
  lemma FibreChannelRoundTrip(c: Config, lun: Option<nat>, ports: seq<string>)
    requires c.Distinct() && LunFits(lun)
    ensures InfoOf(c, Published(c, lun, c.fc, ports, [])) == Some(Info(c.fc, LunNumber(lun), "", PortMap(ports)))
            <==> ports != [] && forall p :: p in ports ==> Free(p, c.separator)
  {
    LunTextReadsBack(lun);
    var parts := Split(Join(ports, c.separator), c.separator);
    SplitPartsAreFree(Join(ports, c.separator), c.separator);
    hide Split, Join, LunText, Atoi;
    assert InfoOf(c, Published(c, lun, c.fc, ports, [])) == Some(Info(c.fc, LunNumber(lun), "", PortMap(parts)));
    if ports != [] && forall p :: p in ports ==> Free(p, c.separator) {
      SplitOfJoin(ports, c.separator);
    }
    if PortMap(parts) == PortMap(ports) {
      assert parts[0] in PortMap(parts);
      forall p | p in ports ensures Free(p, c.separator) {
        assert p in PortMap(ports);
      }
    }
  }

  predicate IsTrimmed(p: string) {
    p != "" && TrimSpace(p) == p
  }

  /**
   NVMe over Fibre Channel: the ports come back exactly when each is trimmed, not empty and free of the separator; no
   ports is fine.
   */
  lemma NvmeOverFcRoundTrip(c: Config, lun: Option<nat>, ports: seq<string>)
    requires c.Distinct() && LunFits(lun)
    ensures InfoOf(c, Published(c, lun, c.nvmeOverFc, ports, [])) ==
            Some(Info(c.nvmeOverFc, LunNumber(lun), "", PortMap(ports)))
            <==> forall p :: p in ports ==> IsTrimmed(p) && Free(p, c.separator)
  {
    LunTextReadsBack(lun);
    TrimmedPartsArePorts(c, ports);
    hide Split, Join, LunText, Atoi, Trimmed, PortMap, IsTrimmed;
  }

  lemma TrimmedPartsArePorts(c: Config, ports: seq<string>)
    ensures Trimmed(Split(Join(ports, c.separator), c.separator)) == PortMap(ports)
            <==> forall p :: p in ports ==> IsTrimmed(p) && Free(p, c.separator)
  {
    var parts := Split(Join(ports, c.separator), c.separator);
    if ports == [] {
      TrimmedGrows([""], 0);
    } else if forall p :: p in ports ==> Free(p, c.separator) {
      SplitOfJoin(ports, c.separator);
      TrimmedKeepsPorts(ports);
    } else if Trimmed(parts) == PortMap(ports) {
      SplitPartsAreFree(Join(ports, c.separator), c.separator);
      hide Split, Join;
      var p :| p in ports && !Free(p, c.separator);
      assert p in Trimmed(parts);
      var q :| q in parts && TrimSpace(q) != "" && TrimSpace(q) == p;
      TrimKeepsFree(q, c.separator);
      assert false;
    }
  }

  lemma {:induction false} TrimKeepsFree(s: string, sep: char)
    requires Free(s, sep)
    ensures Free(TrimSpace(s), sep)
    decreases |s|
  {
    if s != "" {
      if IsSpace(s[0]) {
        TrimKeepsFree(s[1..], sep);
      } else if IsSpace(s[|s| - 1]) {
        TrimKeepsFree(s[..|s| - 1], sep);
      }
    }
  }

  lemma TrimmedKeepsPorts(ports: seq<string>)
    ensures Trimmed(ports) == PortMap(ports) <==> forall p :: p in ports ==> IsTrimmed(p)
  {
    if Trimmed(ports) == PortMap(ports) {
      forall p | p in ports ensures IsTrimmed(p) {
        assert p in Trimmed(ports);
        var q :| q in ports && TrimSpace(q) != "" && TrimSpace(q) == p;
        TrimTwice(q);
      }
    }
    if forall p :: p in ports ==> IsTrimmed(p) {
      assert forall p :: p in Trimmed(ports) <==> p in ports;
    }
  }

  lemma {:induction false} TrimTwice(s: string)
    ensures TrimSpace(TrimSpace(s)) == TrimSpace(s)
    decreases |s|
  {
    if s != "" {
      if IsSpace(s[0]) {
        TrimTwice(s[1..]);
      } else if IsSpace(s[|s| - 1]) {
        TrimTwice(s[..|s| - 1]);
      }
    }
  }

  /** The keys of a dictionary are distinct; none of these may be a parameter name the context uses itself. */
  ghost predicate HasOwnNames(c: Config, targets: seq<Target>) {
    && (forall j, k :: 0 <= j < k < |targets| ==> targets[j].name != targets[k].name)
    && forall k :: 0 <= k < |targets| && targets[k].name != SERIAL ==>
                     targets[k].name !in {c.lunKey, c.connectivityKey, c.iqnKey, c.serialKey}
  }

  /** Each target can be split again: no separator in its name or addresses, and at least one address. */
  ghost predicate Splittable(c: Config, targets: seq<Target>) {
    forall k :: 0 <= k < |targets| && targets[k].name != SERIAL ==> SplittableTarget(c, targets[k])
  }

  predicate SplittableTarget(c: Config, t: Target) {
    Free(t.name, c.separator) && t.ips != [] && forall k :: 0 <= k < |t.ips| ==> Free(t.ips[k], c.separator)
  }

  ghost predicate Readable(c: Config, targets: seq<Target>) {
    HasOwnNames(c, targets) && Splittable(c, targets)
  }

  ghost predicate IsTargetName(targets: seq<Target>, q: string) {
    exists k :: 0 <= k < |targets| && targets[k].name == q && q != SERIAL
  }

  /** `ips` is exactly the dictionary the controller was given, without the serial entry. */
  ghost predicate IsTargetMap(targets: seq<Target>, ips: map<string, seq<string>>) {
    && (forall k :: 0 <= k < |targets| && targets[k].name != SERIAL ==>
                      targets[k].name in ips && ips[targets[k].name] == targets[k].ips)
    && forall q :: q in ips ==> IsTargetName(targets, q)
  }

  /** The serial entry's value, or the empty text without one. */
  function SerialOf(targets: seq<Target>, sep: char): string {
    if targets == [] then ""
    else
      var t := targets[|targets| - 1];
      if t.name == SERIAL then Join(t.ips, sep) else SerialOf(targets[..|targets| - 1], sep)
  }

  /** The serial is what the controller lists under the name "ARRAY_SERIAL_PARAM", and empty if it lists none. */
  lemma {:induction false} SerialIsTheNamedEntry(targets: seq<Target>, sep: char, k: nat)
    requires forall i, j :: 0 <= i < j < |targets| ==> targets[i].name != targets[j].name
    requires k < |targets| ==> targets[k].name == "ARRAY_SERIAL_PARAM"
    requires k >= |targets| ==> forall t :: t in targets ==> t.name != "ARRAY_SERIAL_PARAM"
    ensures SerialOf(targets, sep) == if k < |targets| then Join(targets[k].ips, sep) else ""
  {
    if targets != [] {
      var n := |targets| - 1;
      if k != n {
        assert targets[n] in targets;
        assert k < n ==> targets[..n][k] == targets[k];
        SerialIsTheNamedEntry(targets[..n], sep, k);
      }
    }
  }

  lemma {:induction false} NamesAreTheTargets(c: Config, targets: seq<Target>)
    requires Readable(c, targets)
    ensures forall q :: q in Names(targets) <==> IsTargetName(targets, q)
    ensures forall q :: q in Names(targets) ==> Free(q, c.separator)
  {
    if targets != [] {
      var n := |targets| - 1;
      var before := targets[..n];
      NamesAreTheTargets(c, before);
      forall q ensures IsTargetName(targets, q) <==>
        IsTargetName(before, q) || (q == targets[n].name && q != SERIAL) {
        NameOfLastOrBefore(targets, q);
      }
      assert targets[n].name != SERIAL ==> SplittableTarget(c, targets[n]);
    }
  }

  lemma NameOfLastOrBefore(targets: seq<Target>, q: string)
    requires targets != []
    ensures var n := |targets| - 1;
      IsTargetName(targets, q) <==> IsTargetName(targets[..n], q) || (q == targets[n].name && q != SERIAL)
  {
    var n := |targets| - 1;
    if k :| 0 <= k < n && targets[..n][k].name == q && q != SERIAL {
      assert targets[k].name == q;
    }
    if k :| 0 <= k < |targets| && targets[k].name == q && q != SERIAL {
      if k < n {
        assert targets[..n][k].name == q;
      }
    }
  }

  /** Every target's entry survives the later ones. */
  lemma {:induction false} TargetsSurvive(c: Config, base: Context, targets: seq<Target>)
    requires c.Distinct() && Readable(c, targets)
    ensures HasTargets(c, WithTargets(c, base, targets), targets)
  {
    if targets != [] {
      var n := |targets| - 1;
      var before := targets[..n];
      TargetsSurvive(c, base, before);
      assert forall k :: 0 <= k < n ==> before[k] == targets[k];
      hide Join, Free;
      assert HasTargets(c, WithTargets(c, base, before), before);
    }
  }

  /** So do the LUN, the type and the serial; and no nameless entry appears. */
  lemma {:induction false} ParametersSurvive(c: Config, base: Context, targets: seq<Target>)
    requires c.Distinct() && Readable(c, targets) && c.serialKey !in base
    ensures var context := WithTargets(c, base, targets);
      && Lookup(context, c.lunKey) == Lookup(base, c.lunKey)
      && Lookup(context, c.connectivityKey) == Lookup(base, c.connectivityKey)
      && Lookup(context, c.serialKey) == SerialOf(targets, c.separator)
      && ("" in context ==> "" in base || exists k :: 0 <= k < |targets| && targets[k].name == "")
  {
    if targets != [] {
      var n := |targets| - 1;
      var before := targets[..n];
      ParametersSurvive(c, base, before);
      assert forall k :: 0 <= k < n ==> before[k] == targets[k];
      hide Join, Free;
    }
  }

  /** The node agent reads what the controller was given: type, LUN, serial and every target with its addresses. */
  ghost predicate ComesBack(c: Config, lun: Option<nat>, connectivity: string, targets: seq<Target>) {
    var info := InfoOf(c, Published(c, lun, connectivity, [], targets));
    && info.Some? && info.value.connectivity == connectivity && info.value.lun == LunNumber(lun)
    && info.value.serial == SerialOf(targets, c.separator)
    && IsTargetMap(targets, info.value.ips)
  }

  /** iSCSI and NVMe over RoCE: everything comes back exactly when each target can be split again. */
  lemma TargetsRoundTrip(c: Config, lun: Option<nat>, connectivity: string, targets: seq<Target>)
    requires c.Distinct() && LunFits(lun) && c.IsTargetType(connectivity) && HasOwnNames(c, targets)
    ensures ComesBack(c, lun, connectivity, targets) <==> Splittable(c, targets)
  {
    if Splittable(c, targets) {
      ReadableComesBack(c, lun, connectivity, targets);
    }
    if ComesBack(c, lun, connectivity, targets) {
      var context := Published(c, lun, connectivity, [], targets);
      hide Published, HasOwnNames, Split, LunText, SerialOf, Splittable;
      assert IsTargetMap(targets, InfoOf(c, context).value.ips);
      OnlySplittableComesBack(c, context, targets);
    }
  }

  lemma OnlySplittableComesBack(c: Config, context: Context, targets: seq<Target>)
    requires InfoOf(c, context).Some? && c.Distinct() && c.IsTargetType(Lookup(context, c.connectivityKey))
    requires IsTargetMap(targets, InfoOf(c, context).value.ips)
    ensures Splittable(c, targets)
  {
    hide Split;
    var iqns := Split(Lookup(context, c.iqnKey), c.separator);
    SplitPartsAreFree(Lookup(context, c.iqnKey), c.separator);
    forall k | 0 <= k < |targets| && targets[k].name != SERIAL ensures SplittableTarget(c, targets[k]) {
      TargetIpsAt(context, iqns, c.separator, targets[k].name);
      SplitPartsAreFree(context[targets[k].name], c.separator);
    }
  }

  lemma ReadableComesBack(c: Config, lun: Option<nat>, connectivity: string, targets: seq<Target>)
    requires c.Distinct() && LunFits(lun) && c.IsTargetType(connectivity) && Readable(c, targets)
    ensures ComesBack(c, lun, connectivity, targets)
  {
    hide Readable, IsTargetMap, TargetIps, WithTargets, Names, Split, Join, Atoi, SerialOf, LunText;
    var context := Published(c, lun, connectivity, [], targets);
    LunTextReadsBack(lun);
    TargetsInContext(c, lun, connectivity, targets);
    ListedTargetsAreRead(c, context, targets, Split(Lookup(context, c.iqnKey), c.separator));
  }

  /** What the printed context holds, and that its list names exactly the targets it has entries for. */
  lemma TargetsInContext(c: Config, lun: Option<nat>, connectivity: string, targets: seq<Target>)
    requires c.Distinct() && c.IsTargetType(connectivity) && Readable(c, targets)
    ensures var context := Published(c, lun, connectivity, [], targets);
      && Lookup(context, c.lunKey) == LunText(lun) && Lookup(context, c.connectivityKey) == connectivity
      && Lookup(context, c.serialKey) == SerialOf(targets, c.separator)
      && HasTargets(c, context, targets)
      && forall q :: q in context ==> (q in Split(Lookup(context, c.iqnKey), c.separator) <==> q in Names(targets))
  {
    hide LunText, SerialOf;
    var base, sep := Base(c, lun, connectivity), c.separator;
    TargetsSurvive(c, base, targets);
    ParametersSurvive(c, base, targets);
    NamesAreTheTargets(c, targets);
    hide WithTargets, Names;
    if Names(targets) != [] {
      SplitOfJoin(Names(targets), sep);
    }
  }

  /** The entry of each target is there. */
  ghost predicate HasTargets(c: Config, context: Context, targets: seq<Target>) {
    forall k :: 0 <= k < |targets| && targets[k].name != SERIAL ==>
      targets[k].name in context && context[targets[k].name] == Join(targets[k].ips, c.separator)
  }

  lemma ListedTargetsAreRead(c: Config, context: Context, targets: seq<Target>, iqns: seq<string>)
    requires Readable(c, targets) && HasTargets(c, context, targets)
    requires forall q :: q in context ==> (q in iqns <==> q in Names(targets))
    ensures IsTargetMap(targets, TargetIps(context, iqns, c.separator))
  {
    NamesAreTheTargets(c, targets);
    hide Split, Names, Join, Readable, IsTargetName, TargetIps;
    var ips := TargetIps(context, iqns, c.separator);
    forall k | 0 <= k < |targets| && targets[k].name != SERIAL
      ensures targets[k].name in ips && ips[targets[k].name] == targets[k].ips
    {
      TargetReadsBack(c, targets, k);
      TargetIpsAt(context, iqns, c.separator, targets[k].name);
    }
    forall q | q in ips ensures IsTargetName(targets, q) {
      TargetIpsAt(context, iqns, c.separator, q);
    }
  }

  lemma TargetIpsAt(context: Context, iqns: seq<string>, sep: char, q: string)
    ensures var ips := TargetIps(context, iqns, sep);
      && (q in ips <==> q in iqns && q in context)
      && (q in ips ==> ips[q] == Split(context[q], sep))
  {
    hide Split;
  }

  lemma TargetReadsBack(c: Config, targets: seq<Target>, k: nat)
    requires Readable(c, targets) && k < |targets| && targets[k].name != SERIAL
    ensures IsTargetName(targets, targets[k].name)
    ensures Split(Join(targets[k].ips, c.separator), c.separator) == targets[k].ips
  {
    assert SplittableTarget(c, targets[k]);
    SplitOfJoin(targets[k].ips, c.separator);
  }
}
