/** content.js: the content script on the favourites page. It keeps the set of
    selected gallery ids and two module flags, `isDownloading` and
    `shouldCancel`; it downloads each selected gallery's pages in windows of
    five into one zip folder per gallery.

    The page is left out; what stays is what it feeds in. The checkbox ids
    come in as a parameter. The gallery metadata is a `Result` whose error is
    the message `sendMessage` rejects with. Whether each page's image fetch
    succeeds is an oracle `pageOk`.

    The cancel flag is set by the cancel button or the Escape key. That can
    only happen while the script waits, so between two of its reads of the
    flag. The press is an oracle `cancelAt`: the number of flag reads of the
    run that come before it. `flagReads` counts the reads. The six reads that
    open a window run one after another with no wait between them: the
    window's own check and the check inside each page download. So they all
    see the same value, and the model reads the flag once per window. */
module Content {
  import opened Wrappers
  import opened SeqSet
  import opened JsText

  /** The gallery metadata the page fetch returns: the media id, the pretty
      and English titles (empty when missing, since both are then falsy) and
      each page's image type letter `t`. */
  datatype Gallery = Gallery(mediaId: string, pretty: string, english: string, pageTypes: seq<string>)

  /** The characters `safeTitle` replaces with `_`. */
  const Reserved := "<>:\"/\\|?*"

  /** The number of pages fetched at once. */
  const ConcurrentDownloads := 5

  /** `s.replace(/[<>:"/\\|?*]/g, '_')`. */
  function Sanitize(s: string): (r: string)
    ensures |r| == |s|
    ensures forall i :: 0 <= i < |s| ==> r[i] == if s[i] in Reserved then '_' else s[i]
  {
    if s == [] then [] else [if s[0] in Reserved then '_' else s[0]] + Sanitize(s[1..])
  }

  /** A sanitized title has nothing left to replace. */
  lemma SanitizeIdempotent(s: string)
    ensures Sanitize(Sanitize(s)) == Sanitize(s)
  {
    var t := Sanitize(s);
    assert forall i :: 0 <= i < |t| ==> t[i] !in Reserved;
  }

  /** `data.title.pretty || data.title.english || \`Gallery ${galleryId}\``. */
  function TitleSource(g: Gallery, galleryId: string): string {
    if g.pretty != "" then g.pretty
    else if g.english != "" then g.english
    else "Gallery " + galleryId
  }

  /** The folder name: the chosen title sanitized and cut to 100 characters. */
  function SafeTitle(g: Gallery, galleryId: string): (t: string)
    ensures |t| == Min(|TitleSource(g, galleryId)|, 100)
    ensures t == Sanitize(TitleSource(g, galleryId))[..|t|]
    ensures forall i :: 0 <= i < |t| ==> t[i] != '_' ==> t[i] !in Reserved && t[i] == TitleSource(g, galleryId)[i]
  {
    Truncate(Sanitize(TitleSource(g, galleryId)), 100)
  }

  /** A pretty title of at most 100 characters with no reserved character is
      the folder name as it is; without any title the folder is named after
      the gallery id. */
  lemma SafeTitleKeepsCleanTitle(g: Gallery, galleryId: string)
    ensures g.pretty != "" && |g.pretty| <= 100 && (forall i :: 0 <= i < |g.pretty| ==> g.pretty[i] !in Reserved)
            ==> SafeTitle(g, galleryId) == g.pretty
    ensures g.pretty == "" && g.english == "" && |galleryId| <= 92 && (forall i :: 0 <= i < |galleryId| ==> galleryId[i] !in Reserved)
            ==> SafeTitle(g, galleryId) == "Gallery " + galleryId
  {
    var s := TitleSource(g, galleryId);
    if g.pretty == "" && g.english == "" && |galleryId| <= 92 && (forall i :: 0 <= i < |galleryId| ==> galleryId[i] !in Reserved) {
      assert forall i :: 0 <= i < |s| ==> s[i] !in Reserved by {
        forall i | 0 <= i < |s|
          ensures s[i] !in Reserved
        {
          if i >= 8 {
            assert s[i] == galleryId[i - 8];
          }
        }
      }
      assert Sanitize(s) == s;
    }
  }

  /** `extMap[page.t] || 'jpg'`: only the four known type letters map to
      something else. */
  function ExtFor(t: string): (e: string)
    ensures e in ["jpg", "png", "gif", "webp"]
    ensures e != "jpg" ==> t == [e[0]]
    ensures t == "p" || t == "g" || t == "w" ==> e[0] == t[0]
  {
    if t == "p" then "png"
    else if t == "g" then "gif"
    else if t == "w" then "webp"
    else "jpg"
  }

  /** The image path of page `pageNum`; the random choice among the four image
      hosts is left out. */
  function RequestPath(mediaId: string, pageNum: nat, t: string): string {
    "galleries/" + mediaId + "/" + NatToString(pageNum) + "." + ExtFor(t)
  }

  /** The paths requested for the first `m` pages, in page order. */
  function RequestPaths(g: Gallery, m: nat): (r: seq<string>)
    requires m <= |g.pageTypes|
    ensures |r| == m
  {
    if m == 0 then [] else RequestPaths(g, m - 1) + [RequestPath(g.mediaId, m, g.pageTypes[m - 1])]
  }

  /** Page k + 1 is requested at its number with the extension of its type. */
  lemma {:induction false} RequestPathsAt(g: Gallery, m: nat)
    requires m <= |g.pageTypes|
    ensures forall i :: 0 <= i < m ==> RequestPaths(g, m)[i] == RequestPath(g.mediaId, i + 1, g.pageTypes[i])
  {
    if m > 0 {
      RequestPathsAt(g, m - 1);
    }
  }

  /** `${String(pageNum).padStart(3, '0')}.jpg`: every page is stored as a JPEG. */
  function PageFilename(pageNum: nat): string {
    PadStart(NatToString(pageNum), 3, '0') + ".jpg"
  }

  /** Different pages never share a file name, so no page overwrites another. */
  lemma PageFilenameInjective(m: nat, n: nat)
    requires PageFilename(m) == PageFilename(n)
    ensures m == n
  {
    var a := PadStart(NatToString(m), 3, '0');
    var b := PadStart(NatToString(n), 3, '0');
    assert a == PageFilename(m)[..|a|];
    assert |a| == |b|;
    assert b == PageFilename(n)[..|b|];
    PaddedValue(NatToString(m));
    PaddedValue(NatToString(n));
  }

  /** Zero padding does not change the number a run of digits denotes. */
  lemma PaddedValue(s: string)
    requires AllDigits(s)
    ensures AllDigits(PadStart(s, 3, '0'))
    ensures DigitsValue(PadStart(s, 3, '0')) == DigitsValue(s)
  {
    var p := PadStart(s, 3, '0');
    if |s| < 3 {
      var z := p[..|p| - |s|];
      assert p == z + s;
      LeadingZerosValue(z, s);
    }
  }

  lemma {:induction false} LeadingZerosValue(z: string, s: string)
    requires forall i :: 0 <= i < |z| ==> z[i] == '0'
    requires AllDigits(s)
    ensures AllDigits(z + s) && DigitsValue(z + s) == DigitsValue(s)
  {
    if s == [] {
      assert z + s == z;
      ZerosValue(z);
    } else {
      var t := z + s;
      assert t[..|t| - 1] == z + s[..|s| - 1];
      LeadingZerosValue(z, s[..|s| - 1]);
    }
  }

  lemma {:induction false} ZerosValue(z: string)
    requires forall i :: 0 <= i < |z| ==> z[i] == '0'
    ensures AllDigits(z) && DigitsValue(z) == 0
  {
    if z != [] {
      ZerosValue(z[..|z| - 1]);
    }
  }

  /** The numbers of the pages among the first `m` whose fetch succeeded, in
      ascending order: `Promise.all` keeps the order of its inputs. */
  function OkPages(ok: seq<bool>, m: nat): (ps: seq<nat>)
    requires m <= |ok|
    ensures |ps| <= m
  {
    if m == 0 then [] else OkPages(ok, m - 1) + (if ok[m - 1] then [m] else [])
  }

  /** The pages written are exactly the successful ones, each once and in
      ascending order. */
  lemma {:induction false} OkPagesExactly(ok: seq<bool>, m: nat)
    requires m <= |ok|
    ensures forall p :: p in OkPages(ok, m) <==> 1 <= p <= m && ok[p - 1]
    ensures forall i :: 0 <= i < |OkPages(ok, m)| ==> 1 <= OkPages(ok, m)[i] <= m
    ensures forall i, j :: 0 <= i < j < |OkPages(ok, m)| ==> OkPages(ok, m)[i] < OkPages(ok, m)[j]
  {
    if m > 0 {
      var before := OkPages(ok, m - 1);
      var ps := OkPages(ok, m);
      OkPagesExactly(ok, m - 1);
      assert ps == before + (if ok[m - 1] then [m] else []);
      forall p
        ensures p in ps <==> 1 <= p <= m && ok[p - 1]
      {
        assert p in ps <==> p in before || (ok[m - 1] && p == m);
      }
      forall i | 0 <= i < |ps|
        ensures 1 <= ps[i] <= m
      {
        if i < |before| {
          assert ps[i] == before[i];
        }
      }
      forall i, j | 0 <= i < j < |ps|
        ensures ps[i] < ps[j]
      {
        assert ps[i] == before[i] <= m - 1;
        if j < |before| {
          assert ps[j] == before[j];
        }
      }
    }
  }

  /** The files written for those pages, in that order. */
  function Filenames(ps: seq<nat>): (r: seq<string>)
    ensures |r| == |ps|
  {
    if ps == [] then [] else Filenames(ps[..|ps| - 1]) + [PageFilename(ps[|ps| - 1])]
  }

  /** The file written for each page is its padded name. */
  lemma {:induction false} FilenamesAt(ps: seq<nat>)
    ensures forall i :: 0 <= i < |ps| ==> Filenames(ps)[i] == PageFilename(ps[i])
  {
    if ps != [] {
      var init := ps[..|ps| - 1];
      var front := Filenames(init);
      FilenamesAt(init);
      assert Filenames(ps) == front + [PageFilename(ps[|ps| - 1])];
      forall i | 0 <= i < |ps|
        ensures Filenames(ps)[i] == PageFilename(ps[i])
      {
        if i < |init| {
          assert Filenames(ps)[i] == front[i] && ps[i] == init[i];
        }
      }
    }
  }

  /** The files of a gallery are written once each. */
  lemma WrittenOnce(ok: seq<bool>, m: nat)
    requires m <= |ok|
    ensures Distinct(Filenames(OkPages(ok, m)))
  {
    var ps := OkPages(ok, m);
    var r := Filenames(ps);
    OkPagesExactly(ok, m);
    FilenamesAt(ps);
    forall i, j | 0 <= i < j < |r|
      ensures r[i] != r[j]
    {
      assert ps[i] < ps[j];
      if r[i] == r[j] {
        PageFilenameInjective(ps[i], ps[j]);
      }
    }
  }

  /** The number of windows of five that cover `n` pages. */
  function Windows(n: nat): (w: nat)
    ensures 5 * w >= n && 5 * (w - 1) < n
  {
    (n + 4) / 5
  }

  /** `onPageProgress`'s first argument after each of the first `w` windows:
      `Math.min(i + 5, pages.length)`. */
  function ProgressMarks(n: nat, w: nat): (r: seq<nat>)
    ensures |r| == w
  {
    if w == 0 then [] else ProgressMarks(n, w - 1) + [Min(5 * w, n)]
  }

  /** A full run reports a strictly growing count that ends at the number of
      pages. */
  lemma {:induction false} ProgressClimbsToTotal(n: nat, w: nat)
    requires w <= Windows(n)
    ensures forall i, j :: 0 <= i < j < w ==> ProgressMarks(n, w)[i] < ProgressMarks(n, w)[j]
    ensures forall i :: 0 <= i < w ==> ProgressMarks(n, w)[i] == 5 * (i + 1) || ProgressMarks(n, w)[i] == n
    ensures w > 0 ==> ProgressMarks(n, w)[w - 1] <= n
    ensures w == Windows(n) && n > 0 ==> ProgressMarks(n, w)[w - 1] == n
  {
    if w > 0 {
      ProgressClimbsToTotal(n, w - 1);
      var before := ProgressMarks(n, w - 1);
      assert ProgressMarks(n, w) == before + [Min(5 * w, n)];
      assert forall i :: 0 <= i < w - 1 ==> before[i] <= 5 * (w - 1) < Min(5 * w, n);
    }
  }

  /** Twelve pages are reported as 5, 10 and then 12. */
  lemma TwelvePages()
    ensures Windows(12) == 3 && ProgressMarks(12, 3) == [5, 10, 12]
  {
    assert ProgressMarks(12, 1) == [5];
    assert ProgressMarks(12, 2) == [5, 10];
  }

  /** Does the flag read number `r` of the run see `shouldCancel` set? It
      does when the flag was set on entry or the press came before that read. */
  predicate Raised(flag: bool, cancelAt: Option<nat>, r: nat) {
    flag || (cancelAt.Some? && cancelAt.value <= r)
  }

  /** How many windows of `n` pages are issued when the first window's flag
      read has number `start`: up to the first read that sees the flag. */
  function Issued(n: nat, start: nat, flag: bool, cancelAt: Option<nat>): (w: nat)
    ensures w <= Windows(n)
    ensures w < Windows(n) ==> Raised(flag, cancelAt, start + w)
  {
    if flag then 0
    else if cancelAt.Some? && cancelAt.value < start + Windows(n) then
      if cancelAt.value <= start then 0 else cancelAt.value - start
    else Windows(n)
  }

  /** No read before an issued window sees the cancel. */
  lemma IssuedUnseen(n: nat, start: nat, flag: bool, cancelAt: Option<nat>)
    ensures forall r :: start <= r < start + Issued(n, start, flag, cancelAt) ==> !Raised(flag, cancelAt, r)
  {
  }

  /** The read before window `j` sees the cancel exactly when `j` is the first
      window that is not issued. */
  lemma IssuedReadSees(n: nat, start: nat, flag: bool, cancelAt: Option<nat>, j: nat)
    requires 5 * j < n && j <= Issued(n, start, flag, cancelAt)
    ensures Raised(flag, cancelAt, start + j) <==> j == Issued(n, start, flag, cancelAt)
  {
  }

  /** What `downloadGalleryToZip` leaves behind: the folder it created, the
      image paths it requested, the files it wrote into the folder, each value
      passed to `onPageProgress`, and the message it threw, if any. */
  datatype GalleryRun = GalleryRun(folder: string, requested: seq<string>, files: seq<string>, progress: seq<nat>, error: Option<string>)

  /** Does a gallery download complete when nobody cancels? Its metadata must
      arrive and at least one page must be fetched. */
  predicate Succeeds(data: Result<Gallery, string>, ok: seq<bool>)
    requires data.Ok? ==> |ok| == |data.value.pageTypes|
  {
    data.Ok? && OkPages(ok, |ok|) != []
  }

  predicate OraclesFit(data: seq<Result<Gallery, string>>, ok: seq<seq<bool>>, k: nat) {
    k <= |data| && k <= |ok| && forall i :: 0 <= i < k ==> data[i].Ok? ==> |ok[i]| == |data[i].value.pageTypes|
  }

  /** How many of the first `k` galleries complete when nobody cancels. */
  function SucceedingCount(data: seq<Result<Gallery, string>>, ok: seq<seq<bool>>, k: nat): (c: nat)
    requires OraclesFit(data, ok, k)
    ensures c <= k
  {
    if k == 0 then 0
    else SucceedingCount(data, ok, k - 1) + (if Succeeds(data[k - 1], ok[k - 1]) then 1 else 0)
  }

  /** The end of `downloadSelected`. `attempted` counts the galleries whose
      download began. `cancelSeen` says a read of `shouldCancel` in the run
      saw the cancel. `summaryShown` says the closing toast is shown. */
  datatype Summary =
    | NotStarted
    | Finished(successCount: nat, failCount: nat, attempted: nat, cancelSeen: bool, zipGenerated: bool, summaryShown: bool)

  /** The flag reads `downloadGalleryToZip` makes when its first window's read
      has number `start` and the flag is clear: one per issued window, and one
      more when a window's read sees the cancel. A failed metadata fetch next
      nothing. */
  function GalleryReads(data: Result<Gallery, string>, ok: seq<bool>, start: nat, cancelAt: Option<nat>): nat
    requires data.Ok? ==> |ok| == |data.value.pageTypes|
  {
    if data.Err? then 0
    else
      var w := Issued(|ok|, start, false, cancelAt);
      w + (if w < Windows(|ok|) then 1 else 0)
  }

  /** Does `downloadGalleryToZip` return without throwing? Its metadata must
      arrive, every window must be issued, and some page must be written. */
  predicate GallerySucceeds(data: Result<Gallery, string>, ok: seq<bool>, start: nat, cancelAt: Option<nat>)
    requires data.Ok? ==> |ok| == |data.value.pageTypes|
  {
    data.Ok? && Issued(|ok|, start, false, cancelAt) == Windows(|ok|) && OkPages(ok, |ok|) != []
  }

  /** Where the gallery loop of `downloadSelected` ends: the galleries begun,
      the successes among them, and the number of flag reads made. */
  datatype LoopEnd = LoopEnd(attempted: nat, successCount: nat, readCount: nat)

  /** The gallery loop from gallery `i`, with `s` successes so far and the
      next flag read numbered `next`. Each turn reads the flag and stops when
      that read sees the cancel; otherwise it downloads gallery `i`. */
  function GalleryLoop(data: seq<Result<Gallery, string>>, ok: seq<seq<bool>>, n: nat, i: nat, s: nat, next: nat, cancelAt: Option<nat>): (e: LoopEnd)
    requires i <= n && OraclesFit(data, ok, n)
    decreases n - i
    ensures i <= e.attempted <= n && next <= e.readCount
    ensures s <= e.successCount <= s + (e.attempted - i)
    ensures e.attempted < n ==> cancelAt.Some? && cancelAt.value < e.readCount
  {
    if i == n then LoopEnd(i, s, next)
    else if Raised(false, cancelAt, next) then LoopEnd(i, s, next + 1)
    else
      var won := GallerySucceeds(data[i], ok[i], next + 1, cancelAt);
      GalleryLoop(data, ok, n, i + 1, if won then s + 1 else s, next + 1 + GalleryReads(data[i], ok[i], next + 1, cancelAt), cancelAt)
  }

  /** The numbers of the loop's own flag reads, one per turn from gallery `i`,
      the last being the read that stops the loop when one does. */
  function LoopReads(data: seq<Result<Gallery, string>>, ok: seq<seq<bool>>, n: nat, i: nat, next: nat, cancelAt: Option<nat>): (rs: seq<nat>)
    requires i <= n && OraclesFit(data, ok, n)
    decreases n - i
    ensures |rs| <= n - i + 1
  {
    if i == n then []
    else if Raised(false, cancelAt, next) then [next]
    else [next] + LoopReads(data, ok, n, i + 1, next + 1 + GalleryReads(data[i], ok[i], next + 1, cancelAt), cancelAt)
  }

  /** One turn of the loop whose read sees no cancel: gallery `i` is
      downloaded and the loop goes on from the read after its reads. */
  lemma LoopTurn(data: seq<Result<Gallery, string>>, ok: seq<seq<bool>>, n: nat, i: nat, s: nat, next: nat, cancelAt: Option<nat>)
    requires i < n && OraclesFit(data, ok, n) && !Raised(false, cancelAt, next)
    ensures var after := next + 1 + GalleryReads(data[i], ok[i], next + 1, cancelAt);
            var won := GallerySucceeds(data[i], ok[i], next + 1, cancelAt);
            LoopReads(data, ok, n, i, next, cancelAt) == [next] + LoopReads(data, ok, n, i + 1, after, cancelAt)
            && GalleryLoop(data, ok, n, i, s, next, cancelAt) == GalleryLoop(data, ok, n, i + 1, if won then s + 1 else s, after, cancelAt)
  {
  }

  /** The loop reads one flag per gallery begun, plus the read that stops it
      early; the first of them is `next`. */
  lemma {:induction false} LoopReadsCount(data: seq<Result<Gallery, string>>, ok: seq<seq<bool>>, n: nat, i: nat, s: nat, next: nat, cancelAt: Option<nat>)
    requires i <= n && OraclesFit(data, ok, n)
    decreases n - i
    ensures var e := GalleryLoop(data, ok, n, i, s, next, cancelAt);
            var rs := LoopReads(data, ok, n, i, next, cancelAt);
            |rs| == (if e.attempted < n then e.attempted - i + 1 else e.attempted - i)
            && (rs != [] ==> rs[0] == next)
  {
    if i < n && !Raised(false, cancelAt, next) {
      var won := GallerySucceeds(data[i], ok[i], next + 1, cancelAt);
      LoopReadsCount(data, ok, n, i + 1, if won then s + 1 else s, next + 1 + GalleryReads(data[i], ok[i], next + 1, cancelAt), cancelAt);
    }
  }

  /** Each loop read after the first comes one read after the previous one
      plus the reads of the gallery begun in between. */
  lemma {:induction false} LoopReadsStep(data: seq<Result<Gallery, string>>, ok: seq<seq<bool>>, n: nat, i: nat, next: nat, cancelAt: Option<nat>, k: nat)
    requires i <= n && OraclesFit(data, ok, n)
    requires k + 1 < |LoopReads(data, ok, n, i, next, cancelAt)|
    decreases k
    ensures i + k < n
    ensures var rs := LoopReads(data, ok, n, i, next, cancelAt);
            rs[k + 1] == rs[k] + 1 + GalleryReads(data[i + k], ok[i + k], rs[k] + 1, cancelAt)
  {
    assert i < n && !Raised(false, cancelAt, next);
    var after := next + 1 + GalleryReads(data[i], ok[i], next + 1, cancelAt);
    var rest := LoopReads(data, ok, n, i + 1, after, cancelAt);
    assert LoopReads(data, ok, n, i, next, cancelAt) == [next] + rest;
    if k == 0 {
      LoopReadsCount(data, ok, n, i + 1, 0, after, cancelAt);
    } else {
      LoopReadsStep(data, ok, n, i + 1, after, cancelAt, k - 1);
      assert i + 1 + (k - 1) == i + k;
    }
  }

  /** The loop reads climb. */
  lemma {:induction false} LoopReadsAscend(data: seq<Result<Gallery, string>>, ok: seq<seq<bool>>, n: nat, i: nat, next: nat, cancelAt: Option<nat>)
    requires i <= n && OraclesFit(data, ok, n)
    decreases n - i
    ensures var rs := LoopReads(data, ok, n, i, next, cancelAt);
            forall k :: 0 < k < |rs| ==> rs[k - 1] < rs[k]
  {
    if i < n && !Raised(false, cancelAt, next) {
      var after := next + 1 + GalleryReads(data[i], ok[i], next + 1, cancelAt);
      LoopReadsAscend(data, ok, n, i + 1, after, cancelAt);
      LoopReadsCount(data, ok, n, i + 1, 0, after, cancelAt);
      var rest := LoopReads(data, ok, n, i + 1, after, cancelAt);
      var rs := [next] + rest;
      assert LoopReads(data, ok, n, i, next, cancelAt) == rs;
      assert forall k :: 0 < k < |rs| ==> rs[k] == rest[k - 1];
    }
  }

  /** Every loop read lies between `next` and the loop's last read. */
  lemma {:induction false} LoopReadsBounded(data: seq<Result<Gallery, string>>, ok: seq<seq<bool>>, n: nat, i: nat, s: nat, next: nat, cancelAt: Option<nat>)
    requires i <= n && OraclesFit(data, ok, n)
    decreases n - i
    ensures forall k :: 0 <= k < |LoopReads(data, ok, n, i, next, cancelAt)| ==>
              next <= LoopReads(data, ok, n, i, next, cancelAt)[k] < GalleryLoop(data, ok, n, i, s, next, cancelAt).readCount
  {
    if i < n && !Raised(false, cancelAt, next) {
      var won := GallerySucceeds(data[i], ok[i], next + 1, cancelAt);
      var after := next + 1 + GalleryReads(data[i], ok[i], next + 1, cancelAt);
      var s' := if won then s + 1 else s;
      LoopReadsBounded(data, ok, n, i + 1, s', after, cancelAt);
      var rest := LoopReads(data, ok, n, i + 1, after, cancelAt);
      var rs := [next] + rest;
      var last := GalleryLoop(data, ok, n, i + 1, s', after, cancelAt).readCount;
      assert forall j :: 0 <= j < |rest| ==> after <= rest[j] < last;
      assert LoopReads(data, ok, n, i, next, cancelAt) == rs;
      assert GalleryLoop(data, ok, n, i, s, next, cancelAt).readCount == last;
      assert next < after <= last;
      forall k | 0 <= k < |rs|
        ensures next <= rs[k] < last
      {
        if k == 0 {
          assert rs[k] == next;
        } else {
          assert rs[k] == rest[k - 1] && after <= rest[k - 1] < last;
        }
      }
    }
  }

  /** Every loop read of a gallery begun comes before the press. */
  lemma {:induction false} LoopReadsBeforePress(data: seq<Result<Gallery, string>>, ok: seq<seq<bool>>, n: nat, i: nat, s: nat, next: nat, cancelAt: Option<nat>)
    requires i <= n && OraclesFit(data, ok, n)
    decreases n - i
    ensures GalleryLoop(data, ok, n, i, s, next, cancelAt).attempted - i <= |LoopReads(data, ok, n, i, next, cancelAt)|
    ensures forall k :: 0 <= k < GalleryLoop(data, ok, n, i, s, next, cancelAt).attempted - i ==>
              !Raised(false, cancelAt, LoopReads(data, ok, n, i, next, cancelAt)[k])
  {
    if i < n && !Raised(false, cancelAt, next) {
      var won := GallerySucceeds(data[i], ok[i], next + 1, cancelAt);
      var s' := if won then s + 1 else s;
      var after := next + 1 + GalleryReads(data[i], ok[i], next + 1, cancelAt);
      LoopReadsBeforePress(data, ok, n, i + 1, s', after, cancelAt);
      var rest := LoopReads(data, ok, n, i + 1, after, cancelAt);
      var rs := [next] + rest;
      assert LoopReads(data, ok, n, i, next, cancelAt) == rs;
      assert GalleryLoop(data, ok, n, i, s, next, cancelAt) == GalleryLoop(data, ok, n, i + 1, s', after, cancelAt);
      forall k | 0 < k < |rs|
        ensures rs[k] == rest[k - 1]
      {
      }
    }
  }

  /** A loop stopped early stopped at a read at or after the press. */
  lemma {:induction false} LoopReadsStopAtPress(data: seq<Result<Gallery, string>>, ok: seq<seq<bool>>, n: nat, i: nat, s: nat, next: nat, cancelAt: Option<nat>)
    requires i <= n && OraclesFit(data, ok, n)
    decreases n - i
    ensures GalleryLoop(data, ok, n, i, s, next, cancelAt).attempted < n ==>
              GalleryLoop(data, ok, n, i, s, next, cancelAt).attempted - i < |LoopReads(data, ok, n, i, next, cancelAt)|
              && Raised(false, cancelAt, LoopReads(data, ok, n, i, next, cancelAt)[GalleryLoop(data, ok, n, i, s, next, cancelAt).attempted - i])
  {
    if i < n && !Raised(false, cancelAt, next) {
      var won := GallerySucceeds(data[i], ok[i], next + 1, cancelAt);
      var s' := if won then s + 1 else s;
      var after := next + 1 + GalleryReads(data[i], ok[i], next + 1, cancelAt);
      LoopReadsStopAtPress(data, ok, n, i + 1, s', after, cancelAt);
      var rest := LoopReads(data, ok, n, i + 1, after, cancelAt);
      assert LoopReads(data, ok, n, i, next, cancelAt) == [next] + rest;
      assert GalleryLoop(data, ok, n, i, s, next, cancelAt) == GalleryLoop(data, ok, n, i + 1, s', after, cancelAt);
    }
  }

  /** The loop reads `rs` of a whole run `e`, from gallery 0 and read 0. */
  lemma RunLoopReads(data: seq<Result<Gallery, string>>, ok: seq<seq<bool>>, n: nat, cancelAt: Option<nat>, e: LoopEnd, rs: seq<nat>)
    requires OraclesFit(data, ok, n)
    requires e == GalleryLoop(data, ok, n, 0, 0, 0, cancelAt) && rs == LoopReads(data, ok, n, 0, 0, cancelAt)
    ensures |rs| == (if e.attempted < n then e.attempted + 1 else e.attempted)
    ensures rs != [] ==> rs[0] == 0
    ensures forall k :: 0 < k < |rs| ==> rs[k - 1] < rs[k]
    ensures forall k :: 0 <= k < |rs| ==> rs[k] < e.readCount
    ensures forall k :: 0 <= k < e.attempted ==> !Raised(false, cancelAt, rs[k])
    ensures e.attempted < n ==> Raised(false, cancelAt, rs[e.attempted])
  {
    LoopReadsCount(data, ok, n, 0, 0, 0, cancelAt);
    LoopReadsAscend(data, ok, n, 0, 0, cancelAt);
    LoopReadsBounded(data, ok, n, 0, 0, 0, cancelAt);
    LoopReadsBeforePress(data, ok, n, 0, 0, 0, cancelAt);
    LoopReadsStopAtPress(data, ok, n, 0, 0, 0, cancelAt);
  }

  /** Between two loop reads of a whole run lie exactly the reads of the
      gallery begun after the first of them. */
  lemma RunLoopSteps(data: seq<Result<Gallery, string>>, ok: seq<seq<bool>>, n: nat, cancelAt: Option<nat>, rs: seq<nat>)
    requires OraclesFit(data, ok, n) && rs == LoopReads(data, ok, n, 0, 0, cancelAt)
    ensures forall k :: 0 <= k < |rs| - 1 ==> rs[k + 1] == rs[k] + 1 + GalleryReads(data[k], ok[k], rs[k] + 1, cancelAt)
  {
    forall k | 0 <= k < |rs| - 1
      ensures rs[k + 1] == rs[k] + 1 + GalleryReads(data[k], ok[k], rs[k] + 1, cancelAt)
    {
      LoopReadsStep(data, ok, n, 0, 0, cancelAt, k);
      assert 0 + k == k;
    }
  }

  /** Flag-read numbers of successive loop turns: the first is the run's
      first read, and each later one comes after the one before. */
  ghost predicate ReadsAscend(at: seq<nat>)
  {
    (at != [] ==> at[0] == 0)
    && forall k :: 0 < k < |at| ==> at[k - 1] < at[k]
  }

  /** Once the press is behind the loop's reads, the loop has stopped within
      two reads of it: a gallery cancelled by the press makes one more read,
      and the next loop read stops. */
  lemma {:induction false} LoopEndsNearPress(data: seq<Result<Gallery, string>>, ok: seq<seq<bool>>, n: nat, i: nat, s: nat, next: nat, cancelAt: Option<nat>)
    requires i <= n && OraclesFit(data, ok, n)
    requires !(cancelAt.Some? && cancelAt.value < next)
    decreases n - i
    ensures var e := GalleryLoop(data, ok, n, i, s, next, cancelAt);
            cancelAt.Some? && cancelAt.value < e.readCount ==> e.readCount <= cancelAt.value + 2
  {
    if i < n && !Raised(false, cancelAt, next) {
      var s' := if GallerySucceeds(data[i], ok[i], next + 1, cancelAt) then s + 1 else s;
      var after := next + 1 + GalleryReads(data[i], ok[i], next + 1, cancelAt);
      if cancelAt.Some? && cancelAt.value < after {
        assert after == cancelAt.value + 1;
        assert GalleryLoop(data, ok, n, i + 1, s', after, cancelAt).readCount <= after + 1;
      } else {
        LoopEndsNearPress(data, ok, n, i + 1, s', after, cancelAt);
      }
    }
  }

  /** The summary of a `downloadSelected` run over `n` galleries. After the
      loop, the flag is read once more when something succeeded; the cancel
      is seen when a loop read or that read saw it, and the zip is made when
      something succeeded and no cancel was seen. */
  function RunSummary(data: seq<Result<Gallery, string>>, ok: seq<seq<bool>>, n: nat, cancelAt: Option<nat>): (r: Summary)
    requires OraclesFit(data, ok, n)
    ensures r.Finished? && r.summaryShown
    ensures r.successCount + r.failCount == r.attempted <= n
    ensures r.attempted < n ==> r.cancelSeen
    ensures r.zipGenerated <==> r.successCount > 0 && !r.cancelSeen
  {
    var e := GalleryLoop(data, ok, n, 0, 0, 0, cancelAt);
    var inLoop := cancelAt.Some? && cancelAt.value < e.readCount;
    var seen := if e.successCount > 0 then Raised(inLoop, cancelAt, e.readCount) else inLoop;
    Finished(e.successCount, e.attempted - e.successCount, e.attempted, seen, e.successCount > 0 && !seen, true)
  }

  /** Without a press, the loop begins every gallery and counts exactly the
      ones that complete. */
  lemma {:induction false} LoopWithoutPress(data: seq<Result<Gallery, string>>, ok: seq<seq<bool>>, n: nat, i: nat, s: nat, next: nat)
    requires i <= n && OraclesFit(data, ok, n)
    ensures OraclesFit(data, ok, i)
    ensures GalleryLoop(data, ok, n, i, s, next, None).attempted == n
    ensures GalleryLoop(data, ok, n, i, s, next, None).successCount + SucceedingCount(data, ok, i) == s + SucceedingCount(data, ok, n)
    decreases n - i
  {
    if i < n {
      LoopWithoutPress(data, ok, n, i + 1, if GallerySucceeds(data[i], ok[i], next + 1, None) then s + 1 else s, next + 1 + GalleryReads(data[i], ok[i], next + 1, None));
    }
  }

  /** The loop counts only galleries that complete, so its successes never
      exceed the completing galleries among those it begins. */
  lemma {:induction false} LoopSuccessBound(data: seq<Result<Gallery, string>>, ok: seq<seq<bool>>, n: nat, i: nat, s: nat, next: nat, cancelAt: Option<nat>)
    requires i <= n && OraclesFit(data, ok, n)
    decreases n - i
    ensures OraclesFit(data, ok, GalleryLoop(data, ok, n, i, s, next, cancelAt).attempted)
    ensures GalleryLoop(data, ok, n, i, s, next, cancelAt).successCount + SucceedingCount(data, ok, i)
              <= s + SucceedingCount(data, ok, GalleryLoop(data, ok, n, i, s, next, cancelAt).attempted)
  {
    if i < n && !Raised(false, cancelAt, next) {
      var won := GallerySucceeds(data[i], ok[i], next + 1, cancelAt);
      var after := next + 1 + GalleryReads(data[i], ok[i], next + 1, cancelAt);
      LoopSuccessBound(data, ok, n, i + 1, if won then s + 1 else s, after, cancelAt);
      assert won ==> Succeeds(data[i], ok[i]);
    }
  }

  /** The successes of a whole run are at most the completing galleries it
      begins, and without a press it begins all and counts exactly those. */
  lemma RunSuccesses(data: seq<Result<Gallery, string>>, ok: seq<seq<bool>>, n: nat, cancelAt: Option<nat>, e: LoopEnd)
    requires OraclesFit(data, ok, n) && e == GalleryLoop(data, ok, n, 0, 0, 0, cancelAt)
    ensures OraclesFit(data, ok, e.attempted) && e.successCount <= SucceedingCount(data, ok, e.attempted)
    ensures cancelAt.None? ==> e.attempted == n && e.successCount == SucceedingCount(data, ok, n)
  {
    LoopSuccessBound(data, ok, n, 0, 0, 0, cancelAt);
    if cancelAt.None? {
      LoopWithoutPress(data, ok, n, 0, 0, 0);
    }
  }

  /** Without a press, every gallery is attempted, the successes are the
      galleries that complete, no cancel is seen, and the zip is made exactly
      when one of them completed. */
  lemma RunWithoutPress(data: seq<Result<Gallery, string>>, ok: seq<seq<bool>>, n: nat)
    requires OraclesFit(data, ok, n)
    ensures var c := SucceedingCount(data, ok, n);
            RunSummary(data, ok, n, None) == Finished(c, n - c, n, false, c > 0, true)
  {
    LoopWithoutPress(data, ok, n, 0, 0, 0);
  }

  /** What a whole run promises, with `finalReads` the flag reads it makes
      including the read before the zip. The successes are galleries that
      complete. A cancel is seen exactly when the press came before the last
      read, which is then at most three reads after it. Without a press every
      gallery is begun. The loop reads `rs` climb from the first read; every
      gallery begun had its loop read before the press, a loop stopped early
      stopped at the first loop read at or after it, and between two loop
      reads lie exactly the reads of the gallery begun in between. */
  lemma RunFacts(data: seq<Result<Gallery, string>>, ok: seq<seq<bool>>, n: nat, cancelAt: Option<nat>, r: Summary, rs: seq<nat>, finalReads: nat)
    requires OraclesFit(data, ok, n)
    requires r == RunSummary(data, ok, n, cancelAt) && rs == LoopReads(data, ok, n, 0, 0, cancelAt)
    requires finalReads == GalleryLoop(data, ok, n, 0, 0, 0, cancelAt).readCount + (if r.successCount > 0 then 1 else 0)
    ensures OraclesFit(data, ok, r.attempted) && r.successCount <= SucceedingCount(data, ok, r.attempted)
    ensures r.cancelSeen <==> cancelAt.Some? && cancelAt.value < finalReads
    ensures r.cancelSeen ==> finalReads <= cancelAt.value + 3
    ensures cancelAt.None? ==> !r.cancelSeen && r.attempted == n && r.successCount == SucceedingCount(data, ok, n)
    ensures |rs| == (if r.attempted < n then r.attempted + 1 else r.attempted)
    ensures ReadsAscend(rs) && forall k :: 0 <= k < |rs| ==> rs[k] < finalReads
    ensures forall k :: 0 <= k < r.attempted ==> !Raised(false, cancelAt, rs[k])
    ensures r.attempted < n ==> Raised(false, cancelAt, rs[r.attempted])
    ensures forall k :: 0 <= k < |rs| - 1 ==> rs[k + 1] == rs[k] + 1 + GalleryReads(data[k], ok[k], rs[k] + 1, cancelAt)
  {
    var e := GalleryLoop(data, ok, n, 0, 0, 0, cancelAt);
    RunLoopReads(data, ok, n, cancelAt, e, rs);
    RunLoopSteps(data, ok, n, cancelAt, rs);
    RunSuccesses(data, ok, n, cancelAt, e);
    LoopEndsNearPress(data, ok, n, 0, 0, 0, cancelAt);
  }

  /** A press before the first read stops the run before any gallery. */
  lemma PressBeforeFirstRead(data: seq<Result<Gallery, string>>, ok: seq<seq<bool>>, n: nat)
    requires OraclesFit(data, ok, n) && n > 0
    ensures RunSummary(data, ok, n, Some(0)) == Finished(0, 0, 0, true, false, true)
  {
  }

  /** A gallery of ten good pages, then two galleries whose metadata fails,
      with the press just before the third read: the first window is issued,
      the second window's read throws 'Cancelled', and the next loop read
      ends the run with one gallery attempted and none done. */
  lemma CancelInFirstGallery()
    ensures var g := Gallery("1", "", "", seq(10, _ => "j"));
            var data := [Ok(g), Err("HTTP 404"), Err("HTTP 404")];
            var ok := [seq(10, _ => true), [], []];
            RunSummary(data, ok, 3, Some(2)) == Finished(0, 1, 1, true, false, true)
  {
    var g := Gallery("1", "", "", seq(10, _ => "j"));
    var data := [Ok(g), Err("HTTP 404"), Err("HTTP 404")];
    var ok := [seq(10, _ => true), [], []];
    assert Windows(10) == 2 && Issued(10, 1, false, Some(2)) == 1;
    assert GalleryLoop(data, ok, 3, 1, 0, 3, Some(2)) == LoopEnd(1, 0, 4);
  }

  /** One gallery of one good page, with the press after every read: the
      gallery completes, no cancel is seen and the zip is made. */
  lemma PressAfterLastRead()
    ensures var data := [Ok(Gallery("1", "", "", ["j"]))];
            RunSummary(data, [[true]], 1, Some(5)) == Finished(1, 0, 1, false, true, true)
  {
    var data := [Ok(Gallery("1", "", "", ["j"]))];
    assert Windows(1) == 1 && Issued(1, 1, false, Some(5)) == 1;
    assert OkPages([true], 1) == [1];
    assert GalleryLoop(data, [[true]], 1, 0, 0, 0, Some(5)) == LoopEnd(1, 1, 2);
  }

  class ContentScript {
    /** `selectedGalleries`, a `Set` kept in insertion order. */
    var selected: seq<string>
    var isDownloading: bool
    var shouldCancel: bool
    /** The reads of `shouldCancel` so far in the current run. */
    var flagReads: nat

    ghost predicate Valid()
      reads this
    {
      Distinct(selected)
    }

    constructor()
      ensures Valid() && selected == [] && !isDownloading && !shouldCancel && flagReads == 0
    {
      selected := [];
      isDownloading := false;
      shouldCancel := false;
      flagReads := 0;
    }

    /** `updateDownloadButton`: the button is disabled exactly when nothing is
        selected or a download runs. */
    predicate ButtonDisabled(): (b: bool)
      reads this
      ensures b <==> Elems(selected) == {} || isDownloading
    {
      assert selected != [] ==> selected[0] in Elems(selected);
      |selected| == 0 || isDownloading
    }

    /** `toggleSelection(galleryId)`. */
    method ToggleSelection(id: string)
      requires Valid()
      modifies this
      ensures Valid() && selected == Toggled(old(selected), id)
      ensures isDownloading == old(isDownloading) && shouldCancel == old(shouldCancel) && flagReads == old(flagReads)
    {
      if id in selected {
        selected := Without(selected, id);
      } else {
        selected := selected + [id];
      }
    }

    /** `selectAll()` over the ids of the checkboxes on the page. When as many
        ids are selected as there are checkboxes, it deselects them all;
        otherwise it selects them all. */
    method SelectAll(boxes: seq<string>)
      requires Valid()
      modifies this
      ensures Valid()
      ensures |old(selected)| == |boxes| ==> selected == RemoveAll(old(selected), Elems(boxes))
      ensures |old(selected)| != |boxes| ==> selected == AddAll(old(selected), boxes)
      ensures isDownloading == old(isDownloading) && shouldCancel == old(shouldCancel) && flagReads == old(flagReads)
    {
      // `allSelected` is fixed before the loop, so each branch is a loop of its own.
      if |selected| == |boxes| {
        ClearSelection(boxes);
      } else {
        SelectEach(boxes);
      }
    }

    /** The `!allSelected` branch of `selectAll()`: every checkbox id is added
        in page order. */
    method SelectEach(boxes: seq<string>)
      requires Valid()
      modifies this
      ensures Valid() && selected == AddAll(old(selected), boxes)
      ensures isDownloading == old(isDownloading) && shouldCancel == old(shouldCancel) && flagReads == old(flagReads)
    {
      var k := 0;
      while k < |boxes|
        invariant 0 <= k <= |boxes| && Valid()
        invariant selected == AddAll(old(selected), boxes[..k])
        invariant isDownloading == old(isDownloading) && shouldCancel == old(shouldCancel) && flagReads == old(flagReads)
      {
        SelectStep(old(selected), boxes, k);
        selected := Add(selected, boxes[k]);
        k := k + 1;
      }
      assert boxes[..k] == boxes;
    }

    /** `clearSelection()`: deselects every checkbox id on the page. */
    method ClearSelection(boxes: seq<string>)
      requires Valid()
      modifies this
      ensures Valid() && selected == RemoveAll(old(selected), Elems(boxes))
      ensures isDownloading == old(isDownloading) && shouldCancel == old(shouldCancel) && flagReads == old(flagReads)
    {
      var k := 0;
      while k < |boxes|
        invariant 0 <= k <= |boxes| && Valid()
        invariant selected == RemoveAll(old(selected), Elems(boxes[..k]))
        invariant isDownloading == old(isDownloading) && shouldCancel == old(shouldCancel) && flagReads == old(flagReads)
      {
        SelectStep(old(selected), boxes, k);
        selected := Without(selected, boxes[k]);
        k := k + 1;
      }
      assert boxes[..k] == boxes;
    }

    /** One read of `shouldCancel`: a press that came before it is seen. */
    method ReadCancel(cancelAt: Option<nat>) returns (c: bool)
      modifies this
      ensures flagReads == old(flagReads) + 1
      ensures c == shouldCancel == Raised(old(shouldCancel), cancelAt, old(flagReads))
      ensures selected == old(selected) && isDownloading == old(isDownloading)
    {
      if Raised(shouldCancel, cancelAt, flagReads) {
        shouldCancel := true;
      }
      flagReads := flagReads + 1;
      c := shouldCancel;
    }

    /** `downloadGalleryToZip(galleryId, title, zip, onPageProgress)`. When the
        metadata fetch fails, its message is thrown. Otherwise the pages are
        downloaded window by window (see `DownloadPages`). 'Cancelled' is
        thrown when a window's flag read sees a cancel. 'No pages downloaded'
        is thrown at the end when no page was written, which includes a
        gallery with no pages. */
    method DownloadGalleryToZip(galleryId: string, data: Result<Gallery, string>, pageOk: seq<bool>, cancelAt: Option<nat>)
      returns (g: GalleryRun)
      requires Valid()
      requires data.Ok? ==> |pageOk| == |data.value.pageTypes|
      modifies this
      ensures Valid() && selected == old(selected) && isDownloading == old(isDownloading)
      ensures data.Err? ==> g == GalleryRun("", [], [], [], Some(data.error))
                            && flagReads == old(flagReads) && shouldCancel == old(shouldCancel)
      ensures data.Ok? ==>
                var n := |data.value.pageTypes|;
                var w := Issued(n, old(flagReads), old(shouldCancel), cancelAt);
                var cancelled := w < Windows(n);
                flagReads == old(flagReads) + w + (if cancelled then 1 else 0)
                && shouldCancel == (old(shouldCancel) || cancelled)
                && g.folder == SafeTitle(data.value, galleryId)
                && g.requested == RequestPaths(data.value, Min(5 * w, n))
                && g.files == Filenames(OkPages(pageOk, Min(5 * w, n)))
                && g.progress == ProgressMarks(n, w)
                && g.error == (if cancelled then Some("Cancelled")
                               else if OkPages(pageOk, n) == [] then Some("No pages downloaded")
                               else None)
    {
      if data.Err? {
        return GalleryRun("", [], [], [], Some(data.error));
      }
      var folder := SafeTitle(data.value, galleryId);
      var requested, files, progress, cancelled := DownloadPages(data.value, pageOk, cancelAt);
      if cancelled {
        g := GalleryRun(folder, requested, files, progress, Some("Cancelled"));
      } else if |files| == 0 {
        g := GalleryRun(folder, requested, files, progress, Some("No pages downloaded"));
      } else {
        g := GalleryRun(folder, requested, files, progress, None);
      }
    }

    /** The loop `for (let i = 0; i < pages.length; i += 5)`. Each turn reads
        the flag and stops when it is set. Otherwise it issues the window,
        writes the window's successful pages and reports the progress. */
    method DownloadPages(gallery: Gallery, pageOk: seq<bool>, cancelAt: Option<nat>)
      returns (requested: seq<string>, files: seq<string>, progress: seq<nat>, cancelled: bool)
      requires Valid() && |pageOk| == |gallery.pageTypes|
      modifies this
      ensures Valid() && selected == old(selected) && isDownloading == old(isDownloading)
      ensures var n := |pageOk|;
              var w := Issued(n, old(flagReads), old(shouldCancel), cancelAt);
              cancelled == (w < Windows(n))
              && flagReads == old(flagReads) + w + (if cancelled then 1 else 0)
              && shouldCancel == (old(shouldCancel) || cancelled)
              && requested == RequestPaths(gallery, Min(5 * w, n))
              && files == Filenames(OkPages(pageOk, Min(5 * w, n)))
              && progress == ProgressMarks(n, w)
    {
      var n := |pageOk|;
      ghost var w := Issued(n, flagReads, shouldCancel, cancelAt);
      ghost var start := flagReads;
      ghost var flag := shouldCancel;
      requested, files, progress := [], [], [];
      var i := 0;
      ghost var j := 0;
      while i < n
        invariant i == 5 * j && j <= w
        invariant Valid() && selected == old(selected) && isDownloading == old(isDownloading)
        invariant flagReads == start + j && shouldCancel == flag
        invariant requested == RequestPaths(gallery, Min(i, n))
        invariant files == Filenames(OkPages(pageOk, Min(i, n)))
        invariant progress == ProgressMarks(n, j)
      {
        var stop;
        stop, requested, files, progress := PagesTurn(gallery, pageOk, cancelAt, i, j, w, start, flag, requested, files, progress);
        if stop {
          assert j == w && Min(5 * w, n) == i;
          return requested, files, progress, true;
        }
        i := i + ConcurrentDownloads;
        j := j + 1;
      }
      assert j == w == Windows(n);
      cancelled := false;
    }

    /** One turn of that loop, for window `j`, which starts at page `i`. */
    method PagesTurn(gallery: Gallery, pageOk: seq<bool>, cancelAt: Option<nat>, i: nat, ghost j: nat, ghost w: nat,
                     ghost start: nat, ghost flag: bool, requested: seq<string>, files: seq<string>, progress: seq<nat>)
      returns (stop: bool, requested': seq<string>, files': seq<string>, progress': seq<nat>)
      requires |pageOk| == |gallery.pageTypes| && i < |pageOk| && i == 5 * j
      requires j <= w == Issued(|pageOk|, start, flag, cancelAt)
      requires flagReads == start + j && shouldCancel == flag
      requires requested == RequestPaths(gallery, i) && files == Filenames(OkPages(pageOk, i))
      requires progress == ProgressMarks(|pageOk|, j)
      modifies this
      ensures selected == old(selected) && isDownloading == old(isDownloading) && flagReads == start + j + 1
      ensures stop <==> j == w
      ensures stop ==> shouldCancel && requested' == requested && files' == files && progress' == progress
      ensures !stop ==> shouldCancel == flag
                        && requested' == RequestPaths(gallery, Min(i + 5, |pageOk|))
                        && files' == Filenames(OkPages(pageOk, Min(i + 5, |pageOk|)))
                        && progress' == ProgressMarks(|pageOk|, j + 1)
    {
      var c := ReadCancel(cancelAt);
      IssuedReadSees(|pageOk|, start, flag, cancelAt, j);
      if c {
        return true, requested, files, progress;
      }
      requested', files' := DownloadWindow(gallery, pageOk, i, requested, files);
      progress' := progress + [Min(i + ConcurrentDownloads, |pageOk|)];
      stop := false;
    }

    /** `downloadSelected()`. The ids are taken from the selection. Nothing
        happens when the selection is empty or a download already runs.
        Otherwise the galleries are downloaded in selection order, and the
        gallery loop stops at its first flag read that sees a cancel. After
        the loop, when something succeeded, the flag is read once more, and
        the master zip is generated only when that read sees no cancel. Both
        flags are cleared at the end, so the closing summary is always
        shown. `loopReads` records, for each turn of the gallery loop, the
        index of its flag read: the galleries attempted are those whose loop
        read came before the press, and the loop ends at the first loop read
        at or after it. */
    method DownloadSelected(data: seq<Result<Gallery, string>>, pageOk: seq<seq<bool>>, cancelAt: Option<nat>)
      returns (r: Summary, ghost loopReads: seq<nat>)
      requires Valid() && OraclesFit(data, pageOk, |selected|)
      modifies this
      ensures Valid() && selected == old(selected)
      ensures r.NotStarted? <==> old(ButtonDisabled())
      ensures r.NotStarted? ==> isDownloading == old(isDownloading) && shouldCancel == old(shouldCancel) && flagReads == old(flagReads)
      ensures r.Finished? ==>
                !isDownloading && !shouldCancel && r.summaryShown
                && r.successCount + r.failCount == r.attempted <= |selected|
                && r.successCount <= SucceedingCount(data, pageOk, r.attempted)
                && (r.attempted < |selected| ==> r.cancelSeen)
                && (r.cancelSeen ==> cancelAt.Some? && cancelAt.value < flagReads <= cancelAt.value + 3)
                && (r.cancelSeen <==> cancelAt.Some? && cancelAt.value < flagReads)
                && (r.zipGenerated <==> r.successCount > 0 && !r.cancelSeen)
      ensures r.Finished? && cancelAt.None? ==>
                !r.cancelSeen && r.attempted == |selected| && r.successCount == SucceedingCount(data, pageOk, |selected|)
      ensures r.Finished? ==>
                |loopReads| == (if r.attempted < |selected| then r.attempted + 1 else r.attempted)
                && ReadsAscend(loopReads) && (forall k :: 0 <= k < |loopReads| ==> loopReads[k] < flagReads)
                && (forall k :: 0 <= k < r.attempted ==> !Raised(false, cancelAt, loopReads[k]))
                && (r.attempted < |selected| ==> Raised(false, cancelAt, loopReads[r.attempted]))
                && (forall k :: 0 <= k < |loopReads| - 1 ==>
                      loopReads[k + 1] == loopReads[k] + 1 + GalleryReads(data[k], pageOk[k], loopReads[k] + 1, cancelAt))
      ensures r.Finished? ==> r == RunSummary(data, pageOk, |selected|, cancelAt)
    {
      if |selected| == 0 || isDownloading {
        return NotStarted, [];
      }
      r, loopReads := RunDownload(data, pageOk, cancelAt);
    }

    /** The run of `downloadSelected()` once the button was enabled: both
        flags are set up, the galleries are downloaded, the zip is checked
        for, and both flags are cleared. */
    method RunDownload(data: seq<Result<Gallery, string>>, pageOk: seq<seq<bool>>, cancelAt: Option<nat>)
      returns (r: Summary, ghost loopReads: seq<nat>)
      requires Valid() && OraclesFit(data, pageOk, |selected|) && |selected| > 0
      modifies this
      ensures Valid() && selected == old(selected)
      ensures r.Finished? && !isDownloading && !shouldCancel && r.summaryShown
      ensures r.successCount + r.failCount == r.attempted <= |selected|
      ensures r.successCount <= SucceedingCount(data, pageOk, r.attempted)
      ensures r.attempted < |selected| ==> r.cancelSeen
      ensures r.cancelSeen ==> cancelAt.Some? && cancelAt.value < flagReads <= cancelAt.value + 3
      ensures r.cancelSeen <==> cancelAt.Some? && cancelAt.value < flagReads
      ensures r.zipGenerated <==> r.successCount > 0 && !r.cancelSeen
      ensures cancelAt.None? ==> !r.cancelSeen && r.attempted == |selected| && r.successCount == SucceedingCount(data, pageOk, |selected|)
      ensures |loopReads| == (if r.attempted < |selected| then r.attempted + 1 else r.attempted)
      ensures ReadsAscend(loopReads) && (forall k :: 0 <= k < |loopReads| ==> loopReads[k] < flagReads)
      ensures forall k :: 0 <= k < r.attempted ==> !Raised(false, cancelAt, loopReads[k])
      ensures r.attempted < |selected| ==> Raised(false, cancelAt, loopReads[r.attempted])
      ensures forall k :: 0 <= k < |loopReads| - 1 ==>
                loopReads[k + 1] == loopReads[k] + 1 + GalleryReads(data[k], pageOk[k], loopReads[k] + 1, cancelAt)
      ensures r == RunSummary(data, pageOk, |selected|, cancelAt)
    {
      var ids := selected;
      isDownloading := true;
      shouldCancel := false;
      flagReads := 0;
      var successCount, failCount, i;
      successCount, failCount, i, loopReads := RunGalleries(ids, data, pageOk, cancelAt);
      var zipGenerated := ZipCheck(successCount, cancelAt);
      var cancelSeen := shouldCancel;
      isDownloading := false;
      shouldCancel := false;
      r := Finished(successCount, failCount, i, cancelSeen, zipGenerated, !shouldCancel);
      RunFacts(data, pageOk, |ids|, cancelAt, r, loopReads, flagReads);
    }

    /** The gallery loop of `downloadSelected()` over `ids`, from the run's
        first flag read: each turn reads the flag, stops when the read sees a
        cancel, and otherwise downloads the next gallery, counting it a
        success or a failure. `loopReads` records each turn's read. */
    method RunGalleries(ids: seq<string>, data: seq<Result<Gallery, string>>, pageOk: seq<seq<bool>>, cancelAt: Option<nat>)
      returns (successCount: nat, failCount: nat, attempted: nat, ghost loopReads: seq<nat>)
      requires Valid() && selected == ids && isDownloading && OraclesFit(data, pageOk, |ids|)
      requires !shouldCancel && flagReads == 0
      modifies this
      ensures Valid() && selected == ids && isDownloading
      ensures successCount + failCount == attempted
      ensures LoopEnd(attempted, successCount, flagReads) == GalleryLoop(data, pageOk, |ids|, 0, 0, 0, cancelAt)
      ensures loopReads == LoopReads(data, pageOk, |ids|, 0, 0, cancelAt)
      ensures shouldCancel <==> cancelAt.Some? && cancelAt.value < flagReads
      ensures shouldCancel ==> flagReads <= cancelAt.value + 2
    {
      ghost var run := GalleryLoop(data, pageOk, |ids|, 0, 0, 0, cancelAt);
      ghost var allReads := LoopReads(data, pageOk, |ids|, 0, 0, cancelAt);
      successCount, failCount, attempted, loopReads := 0, 0, 0, [];
      while attempted < |ids|
        invariant attempted <= |ids| && Valid() && selected == ids && isDownloading
        invariant successCount + failCount == attempted
        invariant cancelAt.None? ==> !shouldCancel
        invariant shouldCancel <==> cancelAt.Some? && cancelAt.value < flagReads
        invariant shouldCancel ==> flagReads == cancelAt.value + 1
        invariant loopReads + LoopReads(data, pageOk, |ids|, attempted, flagReads, cancelAt) == allReads
        invariant GalleryLoop(data, pageOk, |ids|, attempted, successCount, flagReads, cancelAt) == run
      {
        var stop, won;
        stop, won, loopReads := LoopStep(ids, data, pageOk, cancelAt, attempted, successCount, loopReads);
        if stop {
          break;
        }
        if won {
          successCount := successCount + 1;
        } else {
          failCount := failCount + 1;
        }
        attempted := attempted + 1;
      }
    }

    /** One turn of the gallery loop at gallery `i` with `s` successes so far:
        the flag is read, and unless that read sees a cancel, gallery `i` is
        downloaded. The turn is the reference loop's first step. */
    method LoopStep(ids: seq<string>, data: seq<Result<Gallery, string>>, pageOk: seq<seq<bool>>, cancelAt: Option<nat>, i: nat, s: nat, ghost prior: seq<nat>)
      returns (stop: bool, won: bool, ghost recorded: seq<nat>)
      requires Valid() && i < |ids| && OraclesFit(data, pageOk, |ids|)
      requires shouldCancel <==> cancelAt.Some? && cancelAt.value < flagReads
      requires shouldCancel ==> flagReads == cancelAt.value + 1
      modifies this
      ensures Valid() && selected == old(selected) && isDownloading == old(isDownloading)
      ensures shouldCancel <==> cancelAt.Some? && cancelAt.value < flagReads
      ensures stop ==> shouldCancel && flagReads <= cancelAt.value + 2
      ensures !stop ==> (shouldCancel ==> flagReads == cancelAt.value + 1)
      ensures cancelAt.None? ==> !stop && !shouldCancel
      ensures stop ==> GalleryLoop(data, pageOk, |ids|, i, s, old(flagReads), cancelAt) == LoopEnd(i, s, flagReads)
                       && LoopReads(data, pageOk, |ids|, i, old(flagReads), cancelAt) == [old(flagReads)]
      ensures !stop ==> GalleryLoop(data, pageOk, |ids|, i, s, old(flagReads), cancelAt)
                          == GalleryLoop(data, pageOk, |ids|, i + 1, if won then s + 1 else s, flagReads, cancelAt)
                        && LoopReads(data, pageOk, |ids|, i, old(flagReads), cancelAt)
                          == [old(flagReads)] + LoopReads(data, pageOk, |ids|, i + 1, flagReads, cancelAt)
      ensures recorded == prior + [old(flagReads)]
      ensures stop ==> recorded == prior + LoopReads(data, pageOk, |ids|, i, old(flagReads), cancelAt)
      ensures !stop ==> recorded + LoopReads(data, pageOk, |ids|, i + 1, flagReads, cancelAt)
                          == prior + LoopReads(data, pageOk, |ids|, i, old(flagReads), cancelAt)
    {
      ghost var at := flagReads;
      recorded := prior + [at];
      var c := ReadCancel(cancelAt);
      if c {
        return true, false, recorded;
      }
      LoopTurn(data, pageOk, |ids|, i, s, at, cancelAt);
      stop := false;
      won := GalleryTurn(ids[i], data[i], pageOk[i], cancelAt);
      ghost var rest := LoopReads(data, pageOk, |ids|, i + 1, flagReads, cancelAt);
      assert recorded + rest == prior + ([at] + rest);
    }

    /** One gallery of the loop, after its flag read saw no cancel: the
        gallery is counted a success exactly when `downloadGalleryToZip`
        throws nothing. */
    method GalleryTurn(galleryId: string, data: Result<Gallery, string>, pageOk: seq<bool>, cancelAt: Option<nat>)
      returns (ok: bool)
      requires Valid() && (data.Ok? ==> |pageOk| == |data.value.pageTypes|)
      requires !shouldCancel && !(cancelAt.Some? && cancelAt.value < flagReads)
      modifies this
      ensures Valid() && selected == old(selected) && isDownloading == old(isDownloading)
      ensures old(flagReads) <= flagReads
      ensures ok ==> Succeeds(data, pageOk)
      ensures cancelAt.None? ==> !shouldCancel && (ok <==> Succeeds(data, pageOk))
      ensures shouldCancel <==> cancelAt.Some? && cancelAt.value < flagReads
      ensures shouldCancel ==> flagReads == cancelAt.value + 1
      ensures flagReads == old(flagReads) + GalleryReads(data, pageOk, old(flagReads), cancelAt)
      ensures ok == GallerySucceeds(data, pageOk, old(flagReads), cancelAt)
    {
      var g := DownloadGalleryToZip(galleryId, data, pageOk, cancelAt);
      ok := g.error.None?;
    }

    /** `if (successCount > 0 && !shouldCancel)` after the gallery loop: the
        flag is read only when something succeeded, and the zip is made when
        that read sees no cancel. */
    method ZipCheck(successCount: nat, cancelAt: Option<nat>) returns (zip: bool)
      requires shouldCancel <==> cancelAt.Some? && cancelAt.value < flagReads
      requires shouldCancel ==> flagReads <= cancelAt.value + 2
      modifies this
      ensures selected == old(selected) && isDownloading == old(isDownloading)
      ensures zip <==> successCount > 0 && !shouldCancel
      ensures shouldCancel <==> cancelAt.Some? && cancelAt.value < flagReads
      ensures shouldCancel ==> flagReads <= cancelAt.value + 3
      ensures old(shouldCancel) ==> shouldCancel
      ensures old(flagReads) <= flagReads
      ensures flagReads == old(flagReads) + (if successCount > 0 then 1 else 0)
      ensures shouldCancel == if successCount > 0 then Raised(old(shouldCancel), cancelAt, old(flagReads)) else old(shouldCancel)
      ensures successCount == 0 ==> flagReads == old(flagReads) && shouldCancel == old(shouldCancel)
    {
      zip := false;
      if successCount > 0 {
        var c := ReadCancel(cancelAt);
        zip := !c;
      }
    }

    /** One window: the requests for pages `i` to `i + 4` (or to the last
        page), and the files of those that succeed. */
    method DownloadWindow(gallery: Gallery, pageOk: seq<bool>, i: nat, requested: seq<string>, files: seq<string>)
      returns (requested': seq<string>, files': seq<string>)
      requires |pageOk| == |gallery.pageTypes| && i < |pageOk|
      requires requested == RequestPaths(gallery, i) && files == Filenames(OkPages(pageOk, i))
      ensures requested' == RequestPaths(gallery, Min(i + 5, |pageOk|))
      ensures files' == Filenames(OkPages(pageOk, Min(i + 5, |pageOk|)))
    {
      var n := |pageOk|;
      requested', files' := requested, files;
      var p := i;
      while p < i + ConcurrentDownloads && p < n
        invariant i <= p <= Min(i + 5, n)
        invariant requested' == RequestPaths(gallery, p) && files' == Filenames(OkPages(pageOk, p))
      {
        requested', files' := DownloadPage(gallery, pageOk, p, requested', files');
        p := p + 1;
      }
      assert p == Min(i + 5, n);
    }

    /** `downloadPage(p)` and the write of its result: page p + 1 is
        requested, and its file is written when the fetch succeeded. */
    method DownloadPage(gallery: Gallery, pageOk: seq<bool>, p: nat, requested: seq<string>, files: seq<string>)
      returns (requested': seq<string>, files': seq<string>)
      requires |pageOk| == |gallery.pageTypes| && p < |pageOk|
      requires requested == RequestPaths(gallery, p) && files == Filenames(OkPages(pageOk, p))
      ensures requested' == RequestPaths(gallery, p + 1)
      ensures files' == Filenames(OkPages(pageOk, p + 1))
    {
      PageStep(gallery, pageOk, p);
      requested' := requested + [RequestPath(gallery.mediaId, p + 1, gallery.pageTypes[p])];
      files' := files;
      if pageOk[p] {
        files' := files + [PageFilename(p + 1)];
      }
    }
  }

  /** `toggleSelection` on the selection as a value: an absent id is
      appended, a present one deleted. */
  function Toggled(s: seq<string>, id: string): (r: seq<string>)
    ensures forall x :: x in r <==> if x == id then id !in s else x in s
    ensures Distinct(s) ==> Distinct(r)
  {
    if id in s then Without(s, id) else s + [id]
  }

  /** Toggling twice selects the same ids as before. An id that was not
      selected leaves the selection exactly as it was. One that was selected
      comes back at the end of the insertion order, as with a JavaScript
      `Set`. */
  lemma ToggleTwice(s: seq<string>, id: string)
    requires Distinct(s)
    ensures forall x :: x in Toggled(Toggled(s, id), id) <==> x in s
    ensures id !in s ==> Toggled(Toggled(s, id), id) == s
    ensures id in s ==> Toggled(Toggled(s, id), id) == Without(s, id) + [id]
  {
    if id !in s {
      RemoveAllAppend(s, [id], {id});
      assert RemoveAll([id], {id}) == [];
    }
  }

  /** One more checkbox deselected, or selected. */
  lemma SelectStep(s: seq<string>, boxes: seq<string>, k: nat)
    requires k < |boxes|
    ensures Without(RemoveAll(s, Elems(boxes[..k])), boxes[k]) == RemoveAll(s, Elems(boxes[..k + 1]))
    ensures Add(AddAll(s, boxes[..k]), boxes[k]) == AddAll(s, boxes[..k + 1])
  {
    assert boxes[..k + 1] == boxes[..k] + [boxes[k]];
    assert Elems(boxes[..k + 1]) == Elems(boxes[..k]) + {boxes[k]};
    assert (boxes[..k + 1])[..k] == boxes[..k];
    WithoutAfterRemoveAll(s, Elems(boxes[..k]), boxes[k]);
  }

  /** One more page requested, and written when it arrived. */
  lemma PageStep(g: Gallery, ok: seq<bool>, p: nat)
    requires |ok| == |g.pageTypes| && p < |ok|
    ensures RequestPaths(g, p + 1) == RequestPaths(g, p) + [RequestPath(g.mediaId, p + 1, g.pageTypes[p])]
    ensures Filenames(OkPages(ok, p + 1)) == Filenames(OkPages(ok, p)) + (if ok[p] then [PageFilename(p + 1)] else [])
  {
    var ps := OkPages(ok, p);
    if ok[p] {
      assert (ps + [p + 1])[..|ps|] == ps;
    } else {
      assert ps + [] == ps;
    }
  }
}
