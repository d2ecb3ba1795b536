/** The firmware state extracted from the event log: EFI images, boot loader configuration, kernel and
    initial ramdisk. */
module FirmwareState {
  import opened Bytes
  import opened BinaryBlob
  import opened EventLog

  const EV_IPL: nat := 0xd
  const EV_EFI_BOOT_SERVICES_APPLICATION: nat := 0x8000_0003

  /** "grub.cfg", "grub_cmd:", "/vmlinuz-" and "/initramfs-" */
  const GRUB_CFG: bytes := [0x67, 0x72, 0x75, 0x62, 0x2E, 0x63, 0x66, 0x67]
  const GRUB_CMD: bytes := [0x67, 0x72, 0x75, 0x62, 0x5F, 0x63, 0x6D, 0x64, 0x3A]
  const VMLINUZ: bytes := [0x2F, 0x76, 0x6D, 0x6C, 0x69, 0x6E, 0x75, 0x7A, 0x2D]
  const INITRAMFS: bytes := [0x2F, 0x69, 0x6E, 0x69, 0x74, 0x72, 0x61, 0x6D, 0x66, 0x73, 0x2D]

  // ----- searching

  predicate Contains(data: bytes, text: bytes) {
    exists i :: 0 <= i <= |data| && At(data, i, text)
  }

  method FindSubstring(data: bytes, text: bytes) returns (found: bool)
    ensures found <==> Contains(data, text)
  {
    if |data| < |text| {
      return false;
    }
    var i := 0;
    while i <= |data| - |text|
      invariant 0 <= i <= |data| - |text| + 1
      invariant forall j :: 0 <= j < i ==> !At(data, j, text)
    {
      if data[i..i + |text|] == text {
        assert At(data, i, text);
        return true;
      }
      i := i + 1;
    }
    found := false;
  }

  /** The name of the configuration file occurs, and not only at the very end: the loop stops one
      position early. */
  predicate NamesGrubCfg(event: bytes) {
    exists i :: 0 <= i < |event| - |GRUB_CFG| && At(event, i, GRUB_CFG)
  }

  /** The last byte of an event is never looked at: a name that ends there is missed. */
  lemma GrubCfgSearchedWithoutLastByte(event: bytes)
    requires event != []
    ensures NamesGrubCfg(event) <==> Contains(event[..|event| - 1], GRUB_CFG)
  {
    var front := event[..|event| - 1];
    forall i | 0 <= i < |event| - |GRUB_CFG| ensures At(event, i, GRUB_CFG) <==> At(front, i, GRUB_CFG) {
      assert front[i..i + |GRUB_CFG|] == event[i..i + |GRUB_CFG|];
    }
  }

  /** The loop of extract_grub_info. */
  method IsGrubCfg(event: bytes) returns (found: bool)
    requires |event| >= |GRUB_CFG|
    ensures found <==> NamesGrubCfg(event)
  {
    var i := 0;
    while i < |event| - |GRUB_CFG|
      invariant 0 <= i <= |event| - |GRUB_CFG|
      invariant forall j :: 0 <= j < i ==> !At(event, j, GRUB_CFG)
    {
      if event[i..i + |GRUB_CFG|] == GRUB_CFG {
        assert At(event, i, GRUB_CFG);
        return true;
      }
      i := i + 1;
    }
    found := false;
  }

  // ----- what is looked for

  datatype Kind = EfiImage | Grub | KernelImage | Initrd

  /** The event has a digest and is of the kind. Text is looked for in the whole entry. */
  predicate Is(e: LogEvent, kind: Kind) {
    && e.Event? && |e.digests| > 0
    && match kind
       case EfiImage => e.eventType == EV_EFI_BOOT_SERVICES_APPLICATION
       case Grub => e.eventType == EV_IPL && NamesGrubCfg(Encode(e))
       case KernelImage => e.eventType == EV_IPL && Contains(Encode(e), VMLINUZ) && !Contains(Encode(e), GRUB_CMD)
       case Initrd => e.eventType == EV_IPL && Contains(Encode(e), INITRAMFS) && !Contains(Encode(e), GRUB_CMD)
  }

  /** The first event of a kind at or after a position, or the length of the log. */
  function First(es: seq<LogEvent>, from: nat, kind: Kind): (r: nat)
    ensures from <= |es| ==> from <= r <= |es|
    ensures from > |es| ==> r == from
    ensures r < |es| ==> Is(es[r], kind)
    ensures forall i :: from <= i < r && i < |es| ==> !Is(es[i], kind)
    decreases |es| - from
  {
    if from >= |es| || Is(es[from], kind) then from else First(es, from + 1, kind)
  }

  /** The digests of the events of a kind, in log order. */
  function DigestsOf(es: seq<LogEvent>, kind: Kind): seq<Digest> {
    if es == [] then []
    else
      var e := es[|es| - 1];
      DigestsOf(es[..|es| - 1], kind) + (if Is(e, kind) then [e.digests[0].digest] else [])
  }

  function GrubAt(es: seq<LogEvent>): nat {
    First(es, 0, Grub)
  }

  function KernelAt(es: seq<LogEvent>): nat {
    First(es, GrubAt(es) + 1, KernelImage)
  }

  function InitrdAt(es: seq<LogEvent>): nat {
    First(es, KernelAt(es) + 1, Initrd)
  }

  function DigestAt(es: seq<LogEvent>, i: nat): Option<Digest>
    requires i < |es| ==> es[i].Event? && |es[i].digests| > 0
  {
    if i < |es| then Some(es[i].digests[0].digest) else None
  }

  // ----- an event that is missed

  predicate NoG(s: bytes) {
    forall i :: 0 <= i < |s| ==> s[i] != GRUB_CFG[0]
  }

  lemma {:induction false} SmallBytes(n: nat, k: nat)
    requires n < GRUB_CFG[0]
    ensures NoG(LittleEndian(n, k))
  {
    if k > 0 {
      SmallBytes(0, k - 1);
    }
  }

  /** The event that names grub.cfg at its very end, and nowhere else, is not the configuration's. */
  lemma GrubCfgAtEndMissed(register: nat, digest: Digest)
    requires register < 100 && NoG(digest)
    ensures var e := Event(register, EV_IPL, [AlgDigest(11, digest)], GRUB_CFG);
            EventOk(e) && Contains(Encode(e), GRUB_CFG) && !Is(e, Grub)
  {
    var e := Event(register, EV_IPL, [AlgDigest(11, digest)], GRUB_CFG);
    var all := Encode(e);
    var n := |all| - |GRUB_CFG|;
    SmallBytes(register, 4);
    SmallBytes(EV_IPL, 4);
    SmallBytes(1, 4);
    SmallBytes(11, 2);
    SmallBytes(8, 4);
    assert EncodeDigests(e.digests) == [] + (LittleEndian(11, 2) + digest) by { assert e.digests[..0] == []; }
    hide LittleEndian, EncodeDigests;
    assert all[n..] == GRUB_CFG && NoG(all[..n]);
    assert At(all, n, GRUB_CFG);
    forall i | 0 <= i < n ensures !At(all, i, GRUB_CFG) {
      assert all[..n][i] == all[i] == all[i..i + |GRUB_CFG|][0];
    }
  }

  // ----- the extraction

  /** What the extraction looks at in the entry of an event. */
  predicate Shows(entry: Entry, e: LogEvent) {
    && entry.event == Encode(e) && |entry.event| >= |GRUB_CFG|
    && (entry.digestCount > 0 <==> e.Event? && |e.digests| > 0)
    && (entry.digestCount > 0 ==> |entry.digests| >= DIGEST_LENGTH && entry.digests[..DIGEST_LENGTH] == e.digests[0].digest)
    && entry.eventType == (if e.Event? then e.eventType else EV_NO_ACTION)
  }

  lemma EntryShowsEvent(blob: bytes, es: seq<LogEvent>, k: nat)
    requires IsLog(blob, es) && k < |es|
    ensures Shows(EntryOf(es[k]), es[k])
  {
    assert EventOk(es[k]);
    LongEnough(es[k]);
    hide Encode;
  }

  lemma LongEnough(e: LogEvent)
    ensures |Encode(e)| >= |GRUB_CFG|
  {
    hide LittleEndian;
  }

  /** The first pass: entries of boot applications, with or without digest. */
  method CountImages(log: Log, ghost es: seq<LogEvent>) returns (count: nat)
    requires IsLog(log.blob, es)
    ensures |DigestsOf(es, EfiImage)| <= count
  {
    hide IsLog, ParseEntry, EncodeAll, EntryOf, Is;
    var cursor := new Cursor(log.blob);
    ghost var k := 0;
    EmptyPosition(es);
    count := 0;
    var more := true;
    assert es[..0] == [];
    while more
      invariant k <= |es| && cursor.blob == log.blob && fresh(cursor)
      invariant if more then cursor.pos == PositionOf(es, k) else k == |es|
      invariant |DigestsOf(es[..k], EfiImage)| <= count
      decreases |es| - k, more
    {
      LogDecoded(log.blob, es, k);
      var entry := ProcessEventLogEntry(cursor);
      if entry == None {
        more := false;
      } else {
        EntryShowsEvent(log.blob, es, k);
        if entry.value.eventType == EV_EFI_BOOT_SERVICES_APPLICATION {
          count := count + 1;
        }
        OneMore(es, k, EfiImage);
        OnlyApplications(es[k], entry.value);
        k := k + 1;
      }
    }
    assert es[..k] == es;
  }

  lemma OnlyApplications(e: LogEvent, entry: Entry)
    requires Shows(entry, e)
    ensures entry.eventType != EV_EFI_BOOT_SERVICES_APPLICATION ==> !Is(e, EfiImage)
    ensures entry.eventType == EV_EFI_BOOT_SERVICES_APPLICATION ==> (Is(e, EfiImage) <==> entry.digestCount > 0)
  {
    hide Encode;
  }

  lemma OneMore(es: seq<LogEvent>, k: nat, kind: Kind)
    requires k < |es|
    ensures DigestsOf(es[..k + 1], kind)
         == DigestsOf(es[..k], kind) + (if Is(es[k], kind) then [es[k].digests[0].digest] else [])
  {
    hide Is;
    assert es[..k + 1][..k] == es[..k];
  }

  lemma {:induction false} FewerBefore(es: seq<LogEvent>, k: nat, kind: Kind)
    requires k <= |es|
    ensures |DigestsOf(es[..k], kind)| <= |DigestsOf(es, kind)|
    decreases |es| - k
  {
    hide Is;
    if k == |es| {
      assert es[..k] == es;
    } else {
      OneMore(es, k, kind);
      FewerBefore(es, k + 1, kind);
    }
  }

  class State {
    /** The array for the images and how many it holds. */
    var images: array<Digest>
    var imageCount: nat
    var grub: Option<Digest>
    var kernel: Option<Digest>
    var initrd: Option<Digest>

    constructor ()
      ensures fresh(images) && imageCount == 0 && grub == None && kernel == None && initrd == None
    {
      images := new Digest[0];
      imageCount, grub, kernel, initrd := 0, None, None, None;
    }

    /** What is found after the first k events of a log. */
    ghost predicate Found(es: seq<LogEvent>, k: nat)
      requires k <= |es|
      reads this
    {
      && grub == (if GrubAt(es) < k then DigestAt(es, GrubAt(es)) else None)
      && kernel == (if KernelAt(es) < k then DigestAt(es, KernelAt(es)) else None)
      && initrd == (if InitrdAt(es) < k then DigestAt(es, InitrdAt(es)) else None)
    }

    /** An entry of type EV_IPL: the configuration is looked for first, then the kernel, then the ramdisk. */
    method Ipl(entry: Entry, ghost es: seq<LogEvent>, ghost k: nat)
      requires k < |es| && Shows(entry, es[k]) && entry.eventType == EV_IPL && Found(es, k)
      modifies this`grub, this`kernel, this`initrd
      ensures Found(es, k + 1)
    {
      Order(es, k);
      hide First, GrubAt, KernelAt, InitrdAt, Encode, Contains, NamesGrubCfg;
      if grub == None {
        var isGrub := IsGrubCfg(entry.event);
        if isGrub && entry.digestCount > 0 {
          grub := Some(entry.digests[..DIGEST_LENGTH]);
        }
      } else if kernel == None {
        var isKernel := FindSubstring(entry.event, VMLINUZ);
        var isCommand := FindSubstring(entry.event, GRUB_CMD);
        if isKernel && !isCommand && entry.digestCount > 0 {
          kernel := Some(entry.digests[..DIGEST_LENGTH]);
        }
      } else if initrd == None {
        var isInitrd := FindSubstring(entry.event, INITRAMFS);
        var isCommand := FindSubstring(entry.event, GRUB_CMD);
        if isInitrd && !isCommand && entry.digestCount > 0 {
          initrd := Some(entry.digests[..DIGEST_LENGTH]);
        }
      }
    }

    /** An entry of a boot application. */
    method Image(entry: Entry)
      requires imageCount <= images.Length
      requires entry.digestCount > 0 ==> imageCount < images.Length && |entry.digests| >= DIGEST_LENGTH
      modifies this`imageCount, images
      ensures imageCount == old(imageCount) + (if entry.digestCount > 0 then 1 else 0)
      ensures images[..imageCount]
           == old(images[..imageCount]) + (if entry.digestCount > 0 then [entry.digests[..DIGEST_LENGTH]] else [])
    {
      if entry.digestCount > 0 {
        images[imageCount] := entry.digests[..DIGEST_LENGTH];
        imageCount := imageCount + 1;
      }
    }

    /** firmware_log_state_extract on a fresh state: the images are the digests of the boot applications in
        log order; configuration, kernel and ramdisk are the first match of each after the one before. */
    method Extract(log: Log, ghost es: seq<LogEvent>)
      requires IsLog(log.blob, es) && imageCount == 0 && grub == None && kernel == None && initrd == None
      modifies this
      ensures imageCount <= images.Length && images[..imageCount] == DigestsOf(es, EfiImage)
      ensures grub == DigestAt(es, GrubAt(es))
      ensures kernel == DigestAt(es, KernelAt(es))
      ensures initrd == DigestAt(es, InitrdAt(es))
    {
      var count := CountImages(log, es);
      images := new Digest[count](_ => Zeros(32));
      imageCount := 0;
      assert es[..0] == [] && es[..|es|] == es;
      NoDigests(EfiImage);
      hide IsLog, Is, First, GrubAt, KernelAt, InitrdAt;
      assert SoFar(es, 0);
      Second(log, es);
    }

    /** What there is after the first k events. */
    ghost predicate SoFar(es: seq<LogEvent>, k: nat)
      requires k <= |es|
      reads this, images
    {
      imageCount <= images.Length && images[..imageCount] == DigestsOf(es[..k], EfiImage) && Found(es, k)
    }

    /** The second pass, with room for the images. */
    method Second(log: Log, ghost es: seq<LogEvent>)
      requires IsLog(log.blob, es) && SoFar(es, 0) && |DigestsOf(es, EfiImage)| <= images.Length
      modifies this`imageCount, this`grub, this`kernel, this`initrd, images
      ensures SoFar(es, |es|)
    {
      hide *;
      var cursor := new Cursor(log.blob);
      ghost var k := 0;
      EmptyPosition(es);
      var more := true;
      while more
        invariant k <= |es| && cursor.blob == log.blob && fresh(cursor)
        invariant if more then cursor.pos == PositionOf(es, k) else k == |es|
        invariant SoFar(es, k)
        decreases |es| - k, more
      {
        LogDecoded(log.blob, es, k);
        var entry := ProcessEventLogEntry(cursor);
        if entry == None {
          more := false;
        } else {
          Next(entry.value, es, k, log.blob);
          k := k + 1;
        }
      }
    }

    method Next(entry: Entry, ghost es: seq<LogEvent>, ghost k: nat, ghost blob: bytes)
      requires IsLog(blob, es) && k < |es| && entry == EntryOf(es[k]) && SoFar(es, k)
      requires |DigestsOf(es, EfiImage)| <= images.Length
      modifies this`imageCount, this`grub, this`kernel, this`initrd, images
      ensures SoFar(es, k + 1)
    {
      hide IsLog, EntryOf, DigestsOf, Found;
      Take(entry, es, k, blob);
    }

    /** The body of the second loop. */
    method Take(entry: Entry, ghost es: seq<LogEvent>, ghost k: nat, ghost blob: bytes)
      requires IsLog(blob, es) && k < |es| && entry == EntryOf(es[k]) && Found(es, k)
      requires |DigestsOf(es, EfiImage)| <= images.Length && imageCount <= images.Length
      requires images[..imageCount] == DigestsOf(es[..k], EfiImage)
      modifies this`imageCount, this`grub, this`kernel, this`initrd, images
      ensures Found(es, k + 1) && imageCount <= images.Length
      ensures images[..imageCount] == DigestsOf(es[..k + 1], EfiImage)
    {
      EntryShowsEvent(blob, es, k);
      OneMore(es, k, EfiImage);
      FewerBefore(es, k + 1, EfiImage);
      OnlyApplications(es[k], entry);
      NotFoundAt(es, k);
      hide IsLog, Is, First, GrubAt, KernelAt, InitrdAt, Encode, DigestsOf, EntryOf;
      if entry.eventType == EV_EFI_BOOT_SERVICES_APPLICATION {
        Image(entry);
      } else if entry.eventType == EV_IPL {
        Ipl(entry, es, k);
      }
    }
  }

  lemma NoDigests(kind: Kind)
    ensures DigestsOf([], kind) == []
  {
  }

  /** Only an event of type EV_IPL can be one of the matches. */
  lemma NotFoundAt(es: seq<LogEvent>, k: nat)
    requires k < |es|
    ensures !(es[k].Event? && es[k].eventType == EV_IPL) ==> GrubAt(es) != k && KernelAt(es) != k && InitrdAt(es) != k
  {
  }

  /** How the positions of the matches relate, and which of them event k can be. */
  lemma Order(es: seq<LogEvent>, k: nat)
    requires k < |es|
    ensures GrubAt(es) < KernelAt(es) < InitrdAt(es)
    ensures GrubAt(es) >= k ==> (GrubAt(es) == k <==> Is(es[k], Grub))
    ensures GrubAt(es) < k <= KernelAt(es) ==> (KernelAt(es) == k <==> Is(es[k], KernelImage))
    ensures KernelAt(es) < k <= InitrdAt(es) ==> (InitrdAt(es) == k <==> Is(es[k], Initrd))
  {
    hide Is, First;
  }

  // ----- the matches in the terms of the log

  lemma SearchedTexts()
    ensures GRUB_CFG == Ascii("grub.cfg") && GRUB_CMD == Ascii("grub_cmd:")
    ensures VMLINUZ == Ascii("/vmlinuz-") && INITRAMFS == Ascii("/initramfs-")
  {
  }

  /** A text stands in the bytes of the event with at least this many bytes behind it. */
  ghost predicate Holds(e: LogEvent, text: string, behind: nat) {
    exists i :: 0 <= i <= |Encode(e)| - |text| - behind && At(Encode(e), i, Ascii(text))
  }

  /** An event is a kernel or a ramdisk by the name in it, unless it is a command of the boot loader; it is the
      configuration if its name occurs, and not at the very end. Every match has a digest. */
  lemma IsExactly(e: LogEvent)
    ensures Is(e, EfiImage) <==> e.Event? && |e.digests| > 0 && e.eventType == 0x8000_0003
    ensures Is(e, Grub) <==> e.Event? && |e.digests| > 0 && e.eventType == 13 && Holds(e, "grub.cfg", 1)
    ensures Is(e, KernelImage)
       <==> e.Event? && |e.digests| > 0 && e.eventType == 13 && Holds(e, "/vmlinuz-", 0) && !Holds(e, "grub_cmd:", 0)
    ensures Is(e, Initrd)
       <==> e.Event? && |e.digests| > 0 && e.eventType == 13 && Holds(e, "/initramfs-", 0) && !Holds(e, "grub_cmd:", 0)
  {
    SearchedTexts();
    hide Encode, Ascii;
  }

  /** The configuration is the first match of the log, the kernel the first after it, the ramdisk the first after that. */
  lemma FirstMatches(es: seq<LogEvent>, g: nat, k: nat, i: nat)
    requires g < k < i < |es| && Is(es[g], Grub) && Is(es[k], KernelImage) && Is(es[i], Initrd)
    requires forall j :: 0 <= j < g ==> !Is(es[j], Grub)
    requires forall j :: g < j < k ==> !Is(es[j], KernelImage)
    requires forall j :: k < j < i ==> !Is(es[j], Initrd)
    ensures DigestAt(es, GrubAt(es)) == Some(es[g].digests[0].digest)
    ensures DigestAt(es, KernelAt(es)) == Some(es[k].digests[0].digest)
    ensures DigestAt(es, InitrdAt(es)) == Some(es[i].digests[0].digest)
  {
    hide Is, First;
    assert es[g].Event? && es[k].Event? && es[i].Event? && |es[g].digests| > 0 && |es[k].digests| > 0 && |es[i].digests| > 0 by {
      MatchHasDigest(es[g], Grub);
      MatchHasDigest(es[k], KernelImage);
      MatchHasDigest(es[i], Initrd);
    }
    assert GrubAt(es) == g;
    assert KernelAt(es) == k;
    assert InitrdAt(es) == i;
  }

  lemma MatchHasDigest(e: LogEvent, kind: Kind)
    requires Is(e, kind)
    ensures e.Event? && |e.digests| > 0
  {
    hide Encode;
  }
}
