/** The install package: a program head, a separator and a tar file, and how the head finds its tar file again. */
module Installer {
  import opened Wrappers

  newtype byte = x: int | 0 <= x < 256

  const SEPARATOR: seq<byte> := [0xff, 0x00, 0xff, 0x00, 0xff, 0x00, 0xff, 0x00]

  /** What `pps-client-make-install` writes. */
  function Package(head: seq<byte>, tar: seq<byte>): seq<byte> {
    head + SEPARATOR + tar
  }

  /** The separator stands at position i. */
  predicate SeparatorAt(buf: seq<byte>, i: int) {
    0 <= i && i + 8 <= |buf| && buf[i..i + 8] == SEPARATOR
  }

  /** The first position at or after i where the separator stands. */
  function Find(buf: seq<byte>, i: nat): (r: Option<nat>)
    requires i <= |buf|
    ensures r.Some? ==> SeparatorAt(buf, r.value) && forall k :: i <= k < r.value ==> !SeparatorAt(buf, k)
    ensures r.None? ==> forall k :: i <= k < |buf| ==> !SeparatorAt(buf, k)
    decreases |buf| - i
  {
    if i == |buf| then None
    else if SeparatorAt(buf, i) then Some(i)
    else Find(buf, i + 1)
  }

  /** What the head extracts from its own file. */
  function Extract(buf: seq<byte>): Option<seq<byte>> {
    match Find(buf, 0)
    case Some(i) => Some(buf[i + 8..])
    case None => None
  }

  ghost predicate ContainsSeparator(head: seq<byte>) {
    exists i :: SeparatorAt(head, i)
  }

  predicate EndsInFF00(head: seq<byte>) {
    |head| >= 2 && head[|head| - 2] == 0xff && head[|head| - 1] == 0x00
  }

  /** A separator that starts in the head lies in it or straddles its end, and then the head ends in FF 00. */
  lemma EarlySeparator(head: seq<byte>, tar: seq<byte>, i: nat)
    requires i < |head| && SeparatorAt(Package(head, tar), i)
    ensures ContainsSeparator(head) || EndsInFF00(head)
  {
    var buf := Package(head, tar);
    if i + 8 <= |head| {
      assert head[i..i + 8] == buf[i..i + 8];
      assert SeparatorAt(head, i);
    } else {
      var r := |head| - i;
      assert forall j :: 0 <= j < 8 ==> buf[i + j] == SEPARATOR[j];
      assert buf[i + r] == SEPARATOR[0];
      assert r != 1 && r != 3 && r != 5 && r != 7;
      assert head[|head| - 2] == buf[i + r - 2] && head[|head| - 1] == buf[i + r - 1];
    }
  }

  /** Conversely either condition puts a separator before the end of the head. */
  lemma SeparatorBeforeEnd(head: seq<byte>, tar: seq<byte>) returns (i: nat)
    requires ContainsSeparator(head) || EndsInFF00(head)
    ensures i < |head| && SeparatorAt(Package(head, tar), i)
  {
    var buf := Package(head, tar);
    if ContainsSeparator(head) {
      i :| SeparatorAt(head, i);
      assert buf[i..i + 8] == head[i..i + 8];
    } else {
      i := |head| - 2;
      assert buf[i..i + 8] == SEPARATOR;
    }
  }

  /** Extraction gives back exactly the tar file if and only if the head has no separator and does not end in FF 00. */
  lemma RoundTrip(head: seq<byte>, tar: seq<byte>)
    ensures Extract(Package(head, tar)) == Some(tar) <==> !ContainsSeparator(head) && !EndsInFF00(head)
  {
    var buf := Package(head, tar);
    assert buf[|head|..|head| + 8] == SEPARATOR;
    assert SeparatorAt(buf, |head|);
    var i := Find(buf, 0).value;
    assert i <= |head|;
    if i == |head| {
      assert buf[i + 8..] == tar;
      if ContainsSeparator(head) || EndsInFF00(head) {
        var k := SeparatorBeforeEnd(head, tar);
      }
    } else {
      EarlySeparator(head, tar, i);
      assert |buf[i + 8..]| > |tar|;
    }
  }

  /** A head that ends in FF 00 without any separator: its last two bytes come out in front of the tar file. */
  lemma HeadLeaksIntoTar()
    ensures var head: seq<byte> := [0x7f, 0xff, 0x00];
      !ContainsSeparator(head) && Extract(Package(head, [0x1f])) == Some([0xff, 0x00, 0x1f])
  {
    var head: seq<byte> := [0x7f, 0xff, 0x00];
    var buf := Package(head, [0x1f]);
    assert !SeparatorAt(buf, 0) by {
      assert buf[0..8][0] != SEPARATOR[0];
    }
    assert buf[1..9] == SEPARATOR;
    assert Find(buf, 0) == Find(buf, 1) == Some(1);
    assert buf[9..] == [0xff, 0x00, 0x1f];
  }

  /** The assembly loop: head, separator and tar file through one moving position. */
  method MakePackage(head: array<byte>, tar: array<byte>) returns (fbuf: array<byte>)
    ensures fresh(fbuf) && fbuf[..] == Package(head[..], tar[..])
  {
    var szHd, szTar := head.Length, tar.Length;
    fbuf := new byte[szHd + szTar + 8](_ => 0);
    forall i | 0 <= i < szHd {
      fbuf[i] := head[i];
    }
    var pbuf := WriteSeparator(fbuf, szHd);
    assert fbuf[..szHd] == head[..];
    forall i | 0 <= i < szTar {
      fbuf[pbuf + i] := tar[i];
    }
    assert fbuf[pbuf..] == tar[..];
    assert fbuf[..] == fbuf[..szHd] + fbuf[szHd..pbuf] + fbuf[pbuf..];
  }

  method WriteSeparator(fbuf: array<byte>, start: nat) returns (pbuf: nat)
    requires start + 8 <= fbuf.Length
    modifies fbuf
    ensures pbuf == start + 8 && fbuf[start..pbuf] == SEPARATOR
    ensures fbuf[..start] == old(fbuf[..start]) && fbuf[pbuf..] == old(fbuf[pbuf..])
  {
    pbuf := start;
    for i := 0 to 8
      invariant pbuf == start + i
      invariant fbuf[..start] == old(fbuf[..start]) && fbuf[start + 8..] == old(fbuf[start + 8..])
      invariant fbuf[start..pbuf] == SEPARATOR[..i]
    {
      fbuf[pbuf] := SEPARATOR[i];
      pbuf := pbuf + 1;
    }
  }

  /** The search loop of the install head, and the tail that it writes to the tar file. */
  method ExtractTar(fbuf: array<byte>) returns (tar: Option<seq<byte>>)
    ensures tar == Extract(fbuf[..])
  {
    var rd := fbuf.Length;
    var i := 0;
    while i < rd && !(i + 8 <= rd && fbuf[i..i + 8] == SEPARATOR)
      invariant i <= rd && Find(fbuf[..], 0) == Find(fbuf[..], i)
    {
      assert fbuf[..][i..][..if i + 8 <= rd then 8 else 0] == fbuf[i..if i + 8 <= rd then i + 8 else i];
      i := i + 1;
    }
    if i == rd {
      return None;
    }
    var sz := rd - (i + 8);
    tar := Some(fbuf[i + 8..i + 8 + sz]);
    assert fbuf[..][i..i + 8] == fbuf[i..i + 8];
    assert fbuf[..][i + 8..] == fbuf[i + 8..i + 8 + sz];
  }
}
