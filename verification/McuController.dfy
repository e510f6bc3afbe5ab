/** The firmware status and the chip serial of one MCU: what a poll reads, how a verdict is
    reached from the shipped images, and how verdicts are debounced before an operator sees
    them. */
module McuController {
  import opened Basics
  import opened ChipSerial
  import opened Gf2

  datatype Status = Unknown | Fine | NoBootloader | UpdateAvailable

  /** Why an alert is shown. */
  datatype Reason = NoReason | PreAB | Mismatch(board: nat, shipped: seq<nat>)

  datatype RefImage = RefImage(boardCode: nat, appCode: nat, crc: nat)

  datatype Verdict = Verdict(status: Status, reason: Reason)

  const CONFIRMATIONS := 3

  // ---------------------------------------------------------------- debouncing

  /** The three verdicts ending at position i agree and are evidence. */
  predicate ConfirmsAt(h: seq<Verdict>, i: int) {
    2 <= i < |h| && h[i].status != Unknown
    && h[i - 1].status == h[i].status && h[i - 2].status == h[i].status
  }

  /** The last confirming position, or -1. */
  function LastConfirming(h: seq<Verdict>): int {
    if h == [] then -1
    else if ConfirmsAt(h, |h| - 1) then |h| - 1
    else LastConfirming(h[..|h| - 1])
  }

  lemma {:induction false} LastConfirmingIsLast(h: seq<Verdict>)
    ensures -1 <= LastConfirming(h) < |h|
    ensures LastConfirming(h) >= 0 ==> ConfirmsAt(h, LastConfirming(h))
    ensures forall i :: LastConfirming(h) < i < |h| ==> !ConfirmsAt(h, i)
  {
    if h != [] && !ConfirmsAt(h, |h| - 1) {
      var init := h[..|h| - 1];
      LastConfirmingIsLast(init);
      assert forall i :: 0 <= i < |h| - 1 ==> (ConfirmsAt(h, i) <==> ConfirmsAt(init, i));
    }
  }

  /** A failed or inconclusive poll changes nothing that is published, in either direction. */
  lemma UnknownPublishesNothing(h: seq<Verdict>, reason: Reason)
    ensures LastConfirming(h + [Verdict(Unknown, reason)]) == LastConfirming(h)
  {
  }

  /** Verdicts that never agree three times running are never published. */
  lemma FlappingPublishesNothing(h: seq<Verdict>)
    ensures LastConfirming(h) == -1
       <==> forall i :: 0 <= i < |h| - 2 && h[i].status != Unknown && h[i].status == h[i + 1].status
                        ==> h[i + 2].status != h[i].status
  {
    LastConfirmingIsLast(h);
    if LastConfirming(h) == -1 {
      forall i | 0 <= i < |h| - 2 && h[i].status != Unknown && h[i].status == h[i + 1].status
        ensures h[i + 2].status != h[i].status
      {
        assert !ConfirmsAt(h, i + 2);
      }
    } else {
      var k := LastConfirming(h);
      assert h[k - 2].status == h[k - 2 + 1].status && h[k - 2 + 2].status == h[k - 2].status;
    }
  }

  /** Length of the run of equal conclusive verdicts at the end. */
  function Run(h: seq<Verdict>): nat {
    if h == [] || h[|h| - 1].status == Unknown then 0
    else if |h| > 1 && h[|h| - 2].status == h[|h| - 1].status then Run(h[..|h| - 1]) + 1
    else 1
  }

  lemma RunOfTwo(h: seq<Verdict>)
    requires |h| >= 1
    ensures Run(h) >= 1 <==> h[|h| - 1].status != Unknown
    ensures Run(h) >= 2 <==> |h| >= 2 && h[|h| - 1].status != Unknown && h[|h| - 2].status == h[|h| - 1].status
  {
  }

  lemma RunConfirms(h: seq<Verdict>)
    requires h != []
    ensures Run(h) >= CONFIRMATIONS <==> ConfirmsAt(h, |h| - 1)
  {
    if |h| > 1 {
      RunOfTwo(h[..|h| - 1]);
    }
  }

  /** How one more verdict changes the run and the last confirming position. */
  lemma OneMore(h: seq<Verdict>, v: Verdict)
    ensures var h' := h + [v];
      && Run(h') == (if v.status == Unknown then 0
                     else if h != [] && h[|h| - 1].status == v.status then Run(h) + 1 else 1)
      && LastConfirming(h') == (if Run(h') >= CONFIRMATIONS then |h| else LastConfirming(h))
      && LastConfirming(h) < |h|
      && forall i :: 0 <= i < |h| ==> h'[i] == h[i]
  {
    var h' := h + [v];
    assert h'[..|h'| - 1] == h;
    RunConfirms(h');
    LastConfirmingIsLast(h);
  }

  // ---------------------------------------------------------------- verdicts

  function HeaderU32(h: seq<byte>, off: nat): nat
    requires off + 4 <= |h|
  {
    var b0: int, b1: int, b2: int, b3: int := h[off], h[off + 1], h[off + 2], h[off + 3];
    b0 + 0x100 * b1 + 0x10000 * b2 + 0x1000000 * b3
  }

  predicate IsBootloaderPage(page: seq<byte>) { |page| >= 2 && page[0] == 0x42 && page[1] == 0x4C }

  predicate IsSlotInfo(info: seq<byte>) {
    |info| == 33 && info[0] == 0x01 && info[1..5] == [0x52, 0x48, 0x38, 0x35]
  }

  /** A shipped image of the running board and application. */
  predicate ShippedFor(r: RefImage, info: seq<byte>)
    requires |info| == 33
  {
    r.boardCode == HeaderU32(info[1..], 8) && r.appCode == HeaderU32(info[1..], 12)
  }

  function ShippedCrcs(refs: seq<RefImage>, info: seq<byte>): seq<nat>
    requires |info| == 33
  {
    if refs == [] then []
    else
      var last := refs[|refs| - 1];
      ShippedCrcs(refs[..|refs| - 1], info) + (if ShippedFor(last, info) then [last.crc] else [])
  }

  /** The verdict of one poll from what could be read stably. The order in which the shipped
      images were catalogued plays no part in the status. */
  ghost function Judge(page: Option<seq<byte>>, info: Option<seq<byte>>, refs: seq<RefImage>): Status {
    if page.None? then Unknown
    else if !IsBootloaderPage(page.value) then NoBootloader
    else if info.None? || !IsSlotInfo(info.value) then Unknown
    else if exists r :: r in refs && ShippedFor(r, info.value) && r.crc == HeaderU32(info.value[1..], 28) then Fine
    else if exists r :: r in refs && ShippedFor(r, info.value) then UpdateAvailable
    else Unknown
  }

  /** Four bytes, lowest first. */
  function LittleEndian(n: nat): (b: seq<byte>)
    requires n < 0x1_0000_0000
    ensures |b| == 4
  {
    [n % 0x100, n / 0x100 % 0x100, n / 0x100 / 0x100 % 0x100, n / 0x100 / 0x100 / 0x100]
  }

  lemma HeaderIsLittleEndian(h: seq<byte>, off: nat, n: nat)
    requires off + 4 <= |h| && n < 0x1_0000_0000 && h[off..off + 4] == LittleEndian(n)
    ensures HeaderU32(h, off) == n
  {
    var b := h[off..off + 4];
    assert b[0] == h[off] && b[1] == h[off + 1] && b[2] == h[off + 2] && b[3] == h[off + 3];
  }

  /** The slot information of an image: its marks, and the three numbers of its header. */
  predicate Describes(info: seq<byte>, image: RefImage) {
    && |info| == 33 && info[..5] == [0x01, 0x52, 0x48, 0x38, 0x35]
    && image.boardCode < 0x1_0000_0000 && image.appCode < 0x1_0000_0000 && image.crc < 0x1_0000_0000
    && info[9..13] == LittleEndian(image.boardCode) && info[13..17] == LittleEndian(image.appCode)
    && info[29..33] == LittleEndian(image.crc)
  }

  lemma PastFirst(info: seq<byte>, off: nat)
    requires off + 5 <= |info|
    ensures info[1..][off..off + 4] == info[off + 1..off + 5]
  {
  }

  lemma MarksOf(info: seq<byte>)
    requires |info| == 33 && info[..5] == [0x01, 0x52, 0x48, 0x38, 0x35]
    ensures IsSlotInfo(info)
  {
    var marks := info[..5];
    assert info[0] == marks[0] && info[1] == marks[1] && info[2] == marks[2] && info[3] == marks[3] && info[4] == marks[4];
    assert info[1..5] == [info[1], info[2], info[3], info[4]];
  }

  /** The verdict in terms of images: fine if the running one is shipped, an update if only others
      of its board and application are, and no evidence if there is none. */
  lemma VerdictOnImage(info: seq<byte>, image: RefImage, refs: seq<RefImage>)
    requires Describes(info, image)
    ensures Judge(Some([0x42, 0x4C]), Some(info), refs)
         == if image in refs then Fine
            else if exists r :: r in refs && r.boardCode == image.boardCode && r.appCode == image.appCode then UpdateAvailable
            else Unknown
  {
    var header := info[1..];
    PastFirst(info, 8);
    PastFirst(info, 12);
    PastFirst(info, 28);
    HeaderIsLittleEndian(header, 8, image.boardCode);
    HeaderIsLittleEndian(header, 12, image.appCode);
    HeaderIsLittleEndian(header, 28, image.crc);
    MarksOf(info);
    forall r: RefImage
      ensures ShippedFor(r, info) <==> r.boardCode == image.boardCode && r.appCode == image.appCode
      ensures ShippedFor(r, info) && r.crc == HeaderU32(header, 28) ==> r == image
    {
      assert r == RefImage(r.boardCode, r.appCode, r.crc);
    }
    assert ShippedFor(image, info);
  }

  // ---------------------------------------------------------------- the bus

  /** What consecutive reads of one register block return: nothing, or its bytes. */
  type Reads = seq<Option<seq<byte>>>

  ghost predicate Sized(seen: Reads, len: nat) {
    forall i :: 0 <= i < |seen| && seen[i].Some? ==> |seen[i].value| == len
  }

  /** The bytes two paired reads agree on; a failed read ends the attempt. */
  function Stable(seen: Reads): Option<seq<byte>> {
    if |seen| < 2 || seen[0].None? || seen[1].None? then None
    else if seen[0].value == seen[1].value then seen[0]
    else Stable(seen[2..])
  }

  /** A stable answer was returned twice in a row by the device. */
  lemma {:induction false} StableWasSeenTwice(seen: Reads, len: nat)
    requires Stable(seen).Some? && Sized(seen, len)
    ensures |Stable(seen).value| == len
    ensures exists i :: 0 <= i < |seen| - 1 && seen[i] == Stable(seen) && seen[i + 1] == Stable(seen)
    decreases |seen|
  {
    if seen[0].value != seen[1].value {
      StableWasSeenTwice(seen[2..], len);
      var i :| 0 <= i < |seen[2..]| - 1 && seen[2..][i] == Stable(seen[2..]) && seen[2..][i + 1] == Stable(seen[2..]);
      assert seen[i + 2] == Stable(seen) && seen[i + 2 + 1] == Stable(seen);
    } else {
      assert seen[0] == Stable(seen) && seen[0 + 1] == Stable(seen);
    }
  }

  /** The chunks of the chip identification, if all of them are stable. */
  function ChipId(chunks: seq<Reads>): Option<seq<byte>> {
    if chunks == [] then Some([])
    else
      var last := Stable(chunks[|chunks| - 1]);
      var rest := ChipId(chunks[..|chunks| - 1]);
      if rest.None? || last.None? then None else Some(rest.value + last.value)
  }

  lemma {:induction false} UnstableChunkHides(chunks: seq<Reads>, n: nat)
    requires n <= |chunks| && ChipId(chunks[..n]).None?
    ensures ChipId(chunks).None?
    decreases |chunks| - n
  {
    if n < |chunks| {
      assert chunks[..n + 1][..n] == chunks[..n];
      UnstableChunkHides(chunks, n + 1);
    } else {
      assert chunks[..n] == chunks;
    }
  }

  predicate IsBlank(id: seq<byte>) { forall i :: 0 <= i < |id| ==> id[i] == 0xFF }

  class Controller {
    var references: seq<RefImage>
    var candidateStatus: Status
    var candidateCount: nat
    var noBootloader: bool
    var updateAvailable: bool
    var versionAlert: bool
    var versionAlertReason: Reason
    var shortSerial: string
    ghost var history: seq<Verdict>

    /** The published flags are those of the last confirmed verdict of all polls so far. */
    ghost predicate Valid()
      reads this`candidateStatus, this`candidateCount, this`noBootloader, this`updateAvailable
      reads this`versionAlert, this`versionAlertReason, this`history
    {
      && candidateCount == (if Run(history) > CONFIRMATIONS then CONFIRMATIONS else Run(history))
      && candidateStatus == (if history == [] then Unknown else history[|history| - 1].status)
      && versionAlert == (noBootloader || updateAvailable)
      && !(noBootloader && updateAvailable)
      && Published()
    }

    ghost predicate Published()
      reads this`noBootloader, this`updateAvailable, this`versionAlertReason, this`history
    {
      var k := LastConfirming(history);
      if 0 <= k < |history| then
        && noBootloader == (history[k].status == NoBootloader)
        && updateAvailable == (history[k].status == UpdateAvailable)
        && versionAlertReason == (if history[k].status == Fine then NoReason else history[k].reason)
      else
        !noBootloader && !updateAvailable && versionAlertReason == NoReason
    }

    constructor (references: seq<RefImage>)
      ensures Valid() && history == [] && shortSerial == "" && this.references == references
    {
      this.references := references;
      candidateStatus, candidateCount := Unknown, 0;
      noBootloader, updateAvailable, versionAlert, versionAlertReason := false, false, false, NoReason;
      shortSerial, history := "", [];
    }

    method SetStatus(noBl: bool, update: bool, reason: Reason)
      modifies this`noBootloader, this`updateAvailable, this`versionAlert, this`versionAlertReason
      ensures noBootloader == noBl && updateAvailable == update && versionAlert == (noBl || update)
      ensures versionAlertReason == reason
    {
      var alert := noBl || update;
      if noBl == noBootloader && update == updateAvailable && alert == versionAlert && reason == versionAlertReason {
        return;
      }
      noBootloader, updateAvailable, versionAlert, versionAlertReason := noBl, update, alert, reason;
    }

    /** Keeps the published flags those of the last three-fold confirmation. */
    method PublishStatus(s: Status, reason: Reason)
      requires Valid()
      modifies this`candidateStatus, this`candidateCount, this`noBootloader, this`updateAvailable,
               this`versionAlert, this`versionAlertReason, this`history
      ensures Valid() && history == old(history) + [Verdict(s, reason)]
    {
      OneMore(history, Verdict(s, reason));
      history := history + [Verdict(s, reason)];
      if s == Unknown {
        candidateStatus, candidateCount := Unknown, 0;
        return;
      }
      if s == candidateStatus {
        if candidateCount < CONFIRMATIONS {
          candidateCount := candidateCount + 1;
        }
      } else {
        candidateStatus, candidateCount := s, 1;
      }
      if candidateCount < CONFIRMATIONS {
        return;
      }
      SetStatus(s == NoBootloader, s == UpdateAvailable, if s == Fine then NoReason else reason);
    }

    /** Up to three pairs of reads of one register block. */
    static method ReadStable(seen: Reads) returns (answer: Option<seq<byte>>)
      requires |seen| == 6
      ensures answer == Stable(seen)
    {
      var attempt := 0;
      while attempt < 3
        invariant 0 <= attempt <= 3
        invariant Stable(seen[2 * attempt..]) == Stable(seen)
      {
        var first, again := seen[2 * attempt], seen[2 * attempt + 1];
        assert seen[2 * attempt..][2..] == seen[2 * (attempt + 1)..];
        if first.None? || again.None? {
          return None;
        }
        if first.value == again.value {
          return first;
        }
        attempt := attempt + 1;
      }
      return None;
    }

    method EvaluateStatus(page: Reads, info: Reads) returns (v: Verdict)
      requires |page| == 6 && Sized(page, 8) && |info| == 6 && Sized(info, 33)
      ensures v.status == Judge(Stable(page), Stable(info), references)
      ensures v.status == NoBootloader ==> v.reason == PreAB
      ensures v.status == UpdateAvailable ==>
        Stable(info).Some? && |Stable(info).value| == 33 &&
        v.reason == Mismatch(HeaderU32(Stable(info).value[1..], 28), ShippedCrcs(references, Stable(info).value))
    {
      var bl := ReadStable(page);
      if bl.None? {
        return Verdict(Unknown, NoReason);
      }
      StableWasSeenTwice(page, 8);
      if bl.value[0] != 0x42 || bl.value[1] != 0x4C {
        return Verdict(NoBootloader, PreAB);
      }
      var slot := ReadStable(info);
      if slot.None? {
        return Verdict(Unknown, NoReason);
      }
      StableWasSeenTwice(info, 33);
      if slot.value[0] != 0x01 || slot.value[1..5] != [0x52, 0x48, 0x38, 0x35] {
        return Verdict(Unknown, NoReason);
      }
      v := MatchReferences(slot.value);
    }

    /** The running slot against the shipped images of its board. */
    method MatchReferences(info: seq<byte>) returns (v: Verdict)
      requires IsSlotInfo(info)
      ensures v.status == Judge(Some([0x42, 0x4C]), Some(info), references)
      ensures v.status != NoBootloader
      ensures v.status == UpdateAvailable ==>
        v.reason == Mismatch(HeaderU32(info[1..], 28), ShippedCrcs(references, info))
    {
      var boardCrc := HeaderU32(info[1..], 28);
      var candidates := 0;
      var shipped: seq<nat> := [];
      for i := 0 to |references|
        invariant shipped == ShippedCrcs(references[..i], info) && candidates == |shipped|
        invariant forall j :: 0 <= j < i && ShippedFor(references[j], info) ==> references[j].crc != boardCrc
        invariant candidates == 0 <==> forall j :: 0 <= j < i ==> !ShippedFor(references[j], info)
      {
        var r := references[i];
        assert references[..i + 1][..i] == references[..i];
        if ShippedFor(r, info) {
          if r.crc == boardCrc {
            return Verdict(Fine, NoReason);
          }
          candidates := candidates + 1;
          shipped := shipped + [r.crc];
        }
      }
      assert references[..|references|] == references;
      if candidates == 0 {
        return Verdict(Unknown, NoReason);
      }
      return Verdict(UpdateAvailable, Mismatch(boardCrc, shipped));
    }

    static method ReadChipId(chunks: seq<Reads>) returns (answer: Option<seq<byte>>)
      requires forall k :: 0 <= k < |chunks| ==> |chunks[k]| == 6
      ensures answer == ChipId(chunks)
    {
      var id: seq<byte> := [];
      for k := 0 to |chunks|
        invariant ChipId(chunks[..k]) == Some(id)
      {
        var chunk := ReadStable(chunks[k]);
        assert chunks[..k + 1][..k] == chunks[..k];
        if chunk.None? {
          UnstableChunkHides(chunks, k + 1);
          return None;
        }
        id := id + chunk.value;
      }
      assert chunks[..|chunks|] == chunks;
      return Some(id);
    }

    static method AllBlank(id: seq<byte>) returns (blank: bool)
      ensures blank <==> IsBlank(id)
    {
      for i := 0 to |id|
        invariant IsBlank(id[..i])
      {
        assert id[..i + 1] == id[..i] + [id[i]];
        if id[i] != 0xFF {
          return false;
        }
      }
      assert id[..|id|] == id;
      return true;
    }

    /** Reads the identification once, in four chunks of 8 bytes; a legacy or unreadable chip
        leaves the serial empty. */
    method ReadChipSerial(chunks: seq<Reads>)
      requires |chunks| == 4 && forall k :: 0 <= k < 4 ==> |chunks[k]| == 6
      modifies this`shortSerial
      ensures var id := ChipId(chunks);
        shortSerial == if old(shortSerial) != "" || id.None? || IsBlank(id.value) then old(shortSerial)
                       else Serial(id.value)
    {
      if shortSerial != "" {
        return;
      }
      var id := ReadChipId(chunks);
      if id.None? {
        return;
      }
      var blank := AllBlank(id.value);
      if blank {
        return;
      }
      var c := ComputeCrc64(id.value);
      var out := RenderSerial(c);
      shortSerial := out[..4] + "-" + out[4..8] + "-" + out[8..];
    }

    /** One successful poll: its verdict enters the history and the serial is read. */
    method UpdateFirmwareStatus(page: Reads, info: Reads, chunks: seq<Reads>)
      requires Valid()
      requires |page| == 6 && Sized(page, 8) && |info| == 6 && Sized(info, 33)
      requires |chunks| == 4 && forall k :: 0 <= k < 4 ==> |chunks[k]| == 6
      modifies this
      ensures Valid() && |history| == |old(history)| + 1 && old(history) <= history
      ensures history[|history| - 1].status == Judge(Stable(page), Stable(info), references)
      ensures references == old(references)
      ensures old(shortSerial) != "" ==> shortSerial == old(shortSerial)
    {
      var v := EvaluateStatus(page, info);
      PublishStatus(v.status, v.reason);
      ReadChipSerial(chunks);
    }
  }

  /** The CRC loop: each byte is mixed in and shifted out bit by bit. */
  method ComputeCrc64(id: seq<byte>) returns (c: Word)
    ensures c == Crc64(id)
  {
    c := Not(Zeros(64));
    for i := 0 to |id|
      invariant Register(POLY, c, id[i..]) == Register(POLY, Not(Zeros(64)), id)
    {
      assert id[i..][1..] == id[i + 1..];
      c := ShiftByte(POLY, c, id[i]);
    }
    c := Not(c);
  }

  method ShiftByte(g: Word, start: Word, b: byte) returns (c: Word)
    ensures c == Shift8(g, MixByte(start, b))
  {
    c := MixByte(start, b);
    EightTimes(g, c);
    ghost var goal := ShiftTimes(g, c, 8);
    for k := 0 to 8
      invariant ShiftTimes(g, c, 8 - k) == goal
    {
      c := Shift(g, c);
    }
  }

  /** The base-32 loop fills the character buffer from its end. */
  method RenderSerial(c: Word) returns (s: string)
    ensures s == Rendered(c, 13)
  {
    var out := new char[13](_ => '0');
    var v := c;
    var i := 13;
    while i > 0
      invariant 0 <= i <= 13
      invariant Rendered(v, i) + out[i..] == Rendered(c, 13)
    {
      ghost var tail, rest := out[i..], Rendered(ShiftFive(v), i - 1);
      var ch := ALPHABET[Digit(v[..5])];
      assert rest + [ch] + tail == rest + ([ch] + tail);
      i := i - 1;
      out[i] := ch;
      assert out[i..] == [ch] + tail;
      v := ShiftFive(v);
    }
    assert Rendered(v, 0) + out[..] == out[..];
    s := out[..];
  }
}
