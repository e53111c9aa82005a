/** The scan history screen (app/history/index.tsx): a list of scanned links with their
    scan times. A link handed to the screen is appended unless it is already listed, so
    links stay unique; an entry can be deleted by its position, after which the append runs
    again (so the entry of the screen's own link comes back). Every change is written to
    local storage, modelled here by a ghost copy of the list last saved. */
module History {
  import opened Wrappers

  datatype QrData = QrData(link: string, scanTime: string)

  /** A route parameter is truthy when it is present and not the empty string. */
  predicate Truthy(p: Option<string>) {
    p.Some? && p.value != ""
  }

  predicate UniqueLinks(list: seq<QrData>) {
    forall i, j :: 0 <= i < j < |list| ==> list[i].link != list[j].link
  }

  /** `list.some(item => item.link === link)` */
  function HasLink(list: seq<QrData>, link: string): (b: bool)
    ensures b <==> exists i :: 0 <= i < |list| && list[i].link == link
  {
    if list == [] then false
    else if list[0].link == link then true
    else
      var b := HasLink(list[1..], link);
      assert b ==> exists i :: 0 <= i < |list| && list[i].link == link by {
        if b {
          var i :| 0 <= i < |list[1..]| && list[1..][i].link == link;
          assert list[i + 1].link == link;
        }
      }
      b
  }

  /** The effect run when the parameters or the list change: the new entry is appended
      when both parameters are truthy and its link is not listed yet. */
  function Record(list: seq<QrData>, qrLink: Option<string>, scanTime: Option<string>): (r: seq<QrData>)
    ensures var add := Truthy(qrLink) && Truthy(scanTime) && !HasLink(list, qrLink.value);
            && (add ==> |r| == |list| + 1 && r[..|list|] == list && r[|list|] == QrData(qrLink.value, scanTime.value))
            && (!add ==> r == list)
  {
    if Truthy(qrLink) && Truthy(scanTime) && !HasLink(list, qrLink.value) then
      list + [QrData(qrLink.value, scanTime.value)]
    else list
  }

  /** Appending keeps links unique. */
  lemma RecordKeepsUnique(list: seq<QrData>, qrLink: Option<string>, scanTime: Option<string>)
    requires UniqueLinks(list)
    ensures UniqueLinks(Record(list, qrLink, scanTime))
  {
  }

  /** Running the effect again on its own result changes nothing, so the re-run triggered by
      its own update is harmless. (A re-run after some other change of the list is not:
      see DeleteRouteLinkReappears.) */
  lemma RecordIdempotent(list: seq<QrData>, qrLink: Option<string>, scanTime: Option<string>)
    ensures Record(Record(list, qrLink, scanTime), qrLink, scanTime) == Record(list, qrLink, scanTime)
  {
    var r := Record(list, qrLink, scanTime);
    if Truthy(qrLink) && Truthy(scanTime) && !HasLink(list, qrLink.value) {
      assert r[|list|].link == qrLink.value;
    }
  }

  /** `list.filter((_, index) => index !== k)`: the entry at position `k` left out, the
      others kept in order; a position outside the list removes nothing. */
  function RemoveAt(list: seq<QrData>, k: int): (r: seq<QrData>)
    ensures 0 <= k < |list| ==> r == list[..k] + list[k + 1..]
    ensures !(0 <= k < |list|) ==> r == list
  {
    if list == [] then []
    else
      assert list == [list[0]] + list[1..];
      (if k == 0 then [] else [list[0]]) + RemoveAt(list[1..], k - 1)
  }

  /** Deleting keeps links unique. */
  lemma RemoveAtKeepsUnique(list: seq<QrData>, k: int)
    requires UniqueLinks(list)
    ensures UniqueLinks(RemoveAt(list, k))
  {
    if 0 <= k < |list| {
      var r := RemoveAt(list, k);
      forall i, j | 0 <= i < j < |r|
        ensures r[i].link != r[j].link
      {
        var i' := if i < k then i else i + 1;
        var j' := if j < k then j else j + 1;
        assert r[i] == list[i'] && r[j] == list[j'];
      }
    }
  }

  /** Deleting the entry whose link is the route's `qrLink` does not shorten the list: the
      effect runs again on the shorter list, no longer finds the link, and appends it again,
      with the route's scan time, at the end. */
  lemma DeleteRouteLinkReappears(list: seq<QrData>, k: int, link: string, time: string)
    requires UniqueLinks(list)
    requires 0 <= k < |list| && list[k].link == link
    requires link != "" && time != ""
    ensures Record(RemoveAt(list, k), Some(link), Some(time)) == RemoveAt(list, k) + [QrData(link, time)]
    ensures |Record(RemoveAt(list, k), Some(link), Some(time))| == |list|
  {
    var r := RemoveAt(list, k);
    forall i | 0 <= i < |r|
      ensures r[i].link != link
    {
      assert r[i] == list[if i < k then i else i + 1];
    }
    assert !HasLink(r, link);
  }

  class HistoryScreen {
    var qrDataList: seq<QrData>
    var qrLink: Option<string>              // the route parameters the screen was opened with
    var scanTime: Option<string>
    ghost var saved: Option<seq<QrData>>   // the list last written to storage

    constructor (qrLink: Option<string>, scanTime: Option<string>)
      ensures qrDataList == [] && saved == None
      ensures this.qrLink == qrLink && this.scanTime == scanTime
    {
      qrDataList := [];
      this.qrLink, this.scanTime := qrLink, scanTime;
      saved := None;
    }

    /** The effect on `qrLink`, `scanTime` and `qrDataList`, run whenever one of them has
        changed: an appended list is saved. */
    method RunEffect()
      modifies this`qrDataList, this`saved
      ensures qrDataList == Record(old(qrDataList), qrLink, scanTime)
      ensures saved == if qrDataList != old(qrDataList) then Some(qrDataList) else old(saved)
    {
      if Truthy(qrLink) && Truthy(scanTime) && !HasLink(qrDataList, qrLink.value) {
        qrDataList := qrDataList + [QrData(qrLink.value, scanTime.value)];
        saved := Some(qrDataList);
      }
    }

    /** `loadQrData`, given the list parsed from storage, if one was stored. A stored list
        replaces the current one, and the effect then runs on it. */
    method LoadQrData(stored: Option<seq<QrData>>)
      modifies this`qrDataList, this`saved
      ensures stored.None? ==> qrDataList == old(qrDataList) && saved == old(saved)
      ensures stored.Some? ==> qrDataList == Record(stored.value, qrLink, scanTime)
      ensures stored.Some? ==> saved == if qrDataList != stored.value then Some(qrDataList) else old(saved)
    {
      if stored.Some? {
        qrDataList := stored.value;
        RunEffect();
      }
    }

    /** New route parameters: the effect runs with them. */
    method OnScanParams(qrLink: Option<string>, scanTime: Option<string>)
      modifies this
      ensures this.qrLink == qrLink && this.scanTime == scanTime
      ensures qrDataList == Record(old(qrDataList), qrLink, scanTime)
      ensures saved == if qrDataList != old(qrDataList) then Some(qrDataList) else old(saved)
    {
      this.qrLink, this.scanTime := qrLink, scanTime;
      RunEffect();
    }

    /** `handleDelete`: the list without that entry is saved; the filtered list is a new
        array, so the effect runs again with the route parameters, and may append (and save) the route's
        link once more. */
    method HandleDelete(indexToDelete: int)
      modifies this`qrDataList, this`saved
      ensures qrDataList == Record(RemoveAt(old(qrDataList), indexToDelete), qrLink, scanTime)
      ensures saved == Some(qrDataList)
    {
      qrDataList := RemoveAt(qrDataList, indexToDelete);
      saved := Some(qrDataList);
      RunEffect();
    }
  }
}
