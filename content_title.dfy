/** The title read off the first page's content (`extract_title_from_content` in
    challenge-1a/app/pdf_utils.py): among the blocks whose bottom edge lies in the top
    60% of the page, the one whose first span is strictly larger than every block
    before it and at least as large as every block after it gives the title. */
module TitleFromContent {
  import opened Seqs
  import opened Text
  import opened Layout

  /** The block lies in the top 60% of a page of height `h`. */
  predicate InTitleArea(b: Block, h: real) {
    b.bbox.y1 < h * 0.6
  }

  /** A block the scan looks at: in the title area, with a first span. */
  predicate Eligible(b: Block, h: real) {
    InTitleArea(b, h) && HasFirstSpan(b)
  }

  /** A text block in the title area without any line: reading its first line
      raises, and the source's handler turns that into None. */
  predicate Crashes(b: Block, h: real) {
    InTitleArea(b, h) && b.TextBlock? && b.lines == []
  }

  /** The running state of the loop: the largest first-span size so far and its
      block's text, or the exception. */
  datatype TitleScan = Scan(largest: real, candidate: string) | Crashed

  /** The loop of `extract_title_from_content` over the sorted blocks of the first page. */
  function ScanTitle(blocks: seq<Block>, h: real): TitleScan {
    if blocks == [] then Scan(0.0, "")
    else
      var st := ScanTitle(blocks[..|blocks| - 1], h);
      var b := blocks[|blocks| - 1];
      if st.Crashed? then Crashed
      else if Crashes(b, h) then Crashed
      else if Eligible(b, h) && FirstSpan(b).size > st.largest then Scan(FirstSpan(b).size, BlockText(b))
      else st
  }

  /** Block `i` is the title block: eligible, with a positive first-span size that is
      strictly larger than every eligible block's before it and at least as large as
      every eligible block's after it. */
  predicate IsTitleBlock(blocks: seq<Block>, h: real, i: int) {
    && 0 <= i < |blocks| && Eligible(blocks[i], h) && FirstSpan(blocks[i]).size > 0.0
    && (forall j :: 0 <= j < i && Eligible(blocks[j], h) ==> FirstSpan(blocks[j]).size < FirstSpan(blocks[i]).size)
    && (forall j :: i < j < |blocks| && Eligible(blocks[j], h) ==> FirstSpan(blocks[j]).size <= FirstSpan(blocks[i]).size)
  }

  /** No eligible block has a positive first-span size. */
  predicate NoPositiveBlock(blocks: seq<Block>, h: real) {
    forall j :: 0 <= j < |blocks| && Eligible(blocks[j], h) ==> FirstSpan(blocks[j]).size <= 0.0
  }

  predicate AnyCrashes(blocks: seq<Block>, h: real) {
    exists j :: 0 <= j < |blocks| && Crashes(blocks[j], h)
  }

  /** The loop ends in the exception exactly when some block crashes it. */
  lemma {:induction false} ScanCrashes(blocks: seq<Block>, h: real)
    ensures ScanTitle(blocks, h).Crashed? <==> AnyCrashes(blocks, h)
  {
    if blocks != [] {
      var init := blocks[..|blocks| - 1];
      ScanCrashes(init, h);
      if AnyCrashes(init, h) {
        var j :| 0 <= j < |init| && Crashes(init[j], h);
        assert Crashes(blocks[j], h);
      }
      if AnyCrashes(blocks, h) && !Crashes(blocks[|blocks| - 1], h) {
        var j :| 0 <= j < |blocks| && Crashes(blocks[j], h);
        assert Crashes(init[j], h);
      }
    }
  }

  lemma NoCrashesInit(blocks: seq<Block>, h: real)
    requires blocks != [] && !AnyCrashes(blocks, h)
    ensures !AnyCrashes(blocks[..|blocks| - 1], h) && !Crashes(blocks[|blocks| - 1], h)
  {
  }

  /** Without the exception, the loop leaves nothing when no block beats the initial 0. */
  lemma {:induction false} ScanNothing(blocks: seq<Block>, h: real)
    requires !AnyCrashes(blocks, h) && NoPositiveBlock(blocks, h)
    ensures ScanTitle(blocks, h) == Scan(0.0, "")
  {
    if blocks != [] {
      var init := blocks[..|blocks| - 1];
      NoCrashesInit(blocks, h);
      assert NoPositiveBlock(init, h) by {
        forall j | 0 <= j < |init| && Eligible(init[j], h) ensures FirstSpan(init[j]).size <= 0.0 {
          assert init[j] == blocks[j];
        }
      }
      ScanNothing(init, h);
    }
  }

  /** A last block larger than everything before it is the title block. */
  lemma TitleAtEnd(blocks: seq<Block>, h: real)
    requires blocks != []
    requires var b := blocks[|blocks| - 1]; Eligible(b, h) && FirstSpan(b).size > 0.0
    requires forall j :: 0 <= j < |blocks| - 1 && Eligible(blocks[j], h) ==> FirstSpan(blocks[j]).size < FirstSpan(blocks[|blocks| - 1]).size
    ensures IsTitleBlock(blocks, h, |blocks| - 1)
  {
  }

  /** A title block stays the title block when the next block is not larger. */
  lemma TitleKept(blocks: seq<Block>, h: real, i: int)
    requires blocks != [] && IsTitleBlock(blocks[..|blocks| - 1], h, i)
    requires var b := blocks[|blocks| - 1]; !(Eligible(b, h) && FirstSpan(b).size > FirstSpan(blocks[i]).size)
    ensures IsTitleBlock(blocks, h, i)
  {
    assert forall j :: 0 <= j < |blocks| - 1 ==> blocks[..|blocks| - 1][j] == blocks[j];
  }

  /** The loop's last step when the blocks before the last neither crash it nor
      beat 0. */
  lemma ScanFirstPositive(blocks: seq<Block>, h: real)
    requires blocks != [] && !AnyCrashes(blocks, h) && !NoPositiveBlock(blocks, h)
    requires NoPositiveBlock(blocks[..|blocks| - 1], h)
    ensures IsTitleBlock(blocks, h, |blocks| - 1)
    ensures ScanTitle(blocks, h) == Scan(FirstSpan(blocks[|blocks| - 1]).size, BlockText(blocks[|blocks| - 1]))
  {
    var init := blocks[..|blocks| - 1];
    NoCrashesInit(blocks, h);
    ScanNothing(init, h);
    assert forall j :: 0 <= j < |init| ==> init[j] == blocks[j];
    TitleAtEnd(blocks, h);
  }

  /** The loop's last step when the blocks before the last have title block `i`. */
  lemma ScanNext(blocks: seq<Block>, h: real, i: int)
    requires blocks != [] && !AnyCrashes(blocks, h)
    requires var init := blocks[..|blocks| - 1];
      IsTitleBlock(init, h, i) && ScanTitle(init, h) == Scan(FirstSpan(init[i]).size, BlockText(init[i]))
    ensures var k := if Eligible(blocks[|blocks| - 1], h) && FirstSpan(blocks[|blocks| - 1]).size > FirstSpan(blocks[i]).size
        then |blocks| - 1 else i;
      IsTitleBlock(blocks, h, k) && ScanTitle(blocks, h) == Scan(FirstSpan(blocks[k]).size, BlockText(blocks[k]))
  {
    var init, b := blocks[..|blocks| - 1], blocks[|blocks| - 1];
    NoCrashesInit(blocks, h);
    assert init[i] == blocks[i];
    if Eligible(b, h) && FirstSpan(b).size > FirstSpan(init[i]).size {
      assert forall j :: 0 <= j < |init| ==> init[j] == blocks[j];
      TitleAtEnd(blocks, h);
    } else {
      TitleKept(blocks, h, i);
    }
  }

  /** Without the exception, and with some block beating the initial 0, the loop
      leaves the title block's size and text. */
  lemma {:induction false} ScanFindsTitle(blocks: seq<Block>, h: real)
    requires !AnyCrashes(blocks, h) && !NoPositiveBlock(blocks, h)
    ensures exists i :: IsTitleBlock(blocks, h, i) && ScanTitle(blocks, h) == Scan(FirstSpan(blocks[i]).size, BlockText(blocks[i]))
  {
    var init := blocks[..|blocks| - 1];
    NoCrashesInit(blocks, h);
    if NoPositiveBlock(init, h) {
      ScanFirstPositive(blocks, h);
    } else {
      ScanFindsTitle(init, h);
      var i :| IsTitleBlock(init, h, i) && ScanTitle(init, h) == Scan(FirstSpan(init[i]).size, BlockText(init[i]));
      ScanNext(blocks, h, i);
    }
  }

  /** The title the loop leaves for the blocks of a page of height `h`: None after
      the exception or when the candidate stays `""`. */
  function BlocksTitle(blocks: seq<Block>, h: real): Option<string> {
    var st := ScanTitle(blocks, h);
    if st.Crashed? || st.candidate == "" then None else Some(st.candidate)
  }

  /** What `extract_title_from_content(doc)` returns. */
  function ContentTitle(doc: Document): Option<string> {
    if doc.pages == [] then None else BlocksTitle(doc.pages[0].sortedBlocks, doc.pages[0].height)
  }

  ghost predicate HasTitleBlock(blocks: seq<Block>, h: real) {
    exists i :: IsTitleBlock(blocks, h, i)
  }

  /** A crashing block leaves no title. */
  lemma CrashNoTitle(blocks: seq<Block>, h: real)
    requires AnyCrashes(blocks, h)
    ensures BlocksTitle(blocks, h).None?
  {
    ScanCrashes(blocks, h);
  }

  /** Without a positive first-span size there is neither a title block nor a title. */
  lemma NothingNoTitle(blocks: seq<Block>, h: real)
    requires !AnyCrashes(blocks, h) && NoPositiveBlock(blocks, h)
    ensures BlocksTitle(blocks, h).None? && !HasTitleBlock(blocks, h)
  {
    ScanNothing(blocks, h);
  }

  /** Otherwise the title is the text of the one title block, unless that is empty. */
  lemma PositiveTitle(blocks: seq<Block>, h: real)
    requires !AnyCrashes(blocks, h) && !NoPositiveBlock(blocks, h)
    ensures exists i :: (IsTitleBlock(blocks, h, i)
      && BlocksTitle(blocks, h) == (if BlockText(blocks[i]) == "" then None else Some(BlockText(blocks[i]))))
  {
    ScanFindsTitle(blocks, h);
  }

  /** The blocks' title is never `""`. It is found exactly when no block crashes the
      scan and the title block has non-empty text, and then it is that text. */
  lemma BlocksTitleSpec(blocks: seq<Block>, h: real)
    ensures BlocksTitle(blocks, h) != Some("")
    ensures BlocksTitle(blocks, h).Some? <==>
      !AnyCrashes(blocks, h) && exists i :: IsTitleBlock(blocks, h, i) && BlockText(blocks[i]) != ""
    ensures BlocksTitle(blocks, h).Some? ==>
      exists i :: IsTitleBlock(blocks, h, i) && BlocksTitle(blocks, h).value == BlockText(blocks[i])
  {
    if AnyCrashes(blocks, h) {
      CrashNoTitle(blocks, h);
    } else if NoPositiveBlock(blocks, h) {
      NothingNoTitle(blocks, h);
    } else {
      PositiveTitle(blocks, h);
      var i :| IsTitleBlock(blocks, h, i)
        && BlocksTitle(blocks, h) == (if BlockText(blocks[i]) == "" then None else Some(BlockText(blocks[i])));
      forall i' | IsTitleBlock(blocks, h, i') ensures i' == i {
        TitleBlockUnique(blocks, h, i, i');
      }
    }
  }

  /** The content title: None without pages; otherwise the first page's title. */
  lemma ContentTitleSpec(doc: Document)
    ensures doc.pages == [] ==> ContentTitle(doc).None?
    ensures doc.pages != [] ==> ContentTitle(doc) == BlocksTitle(doc.pages[0].sortedBlocks, doc.pages[0].height)
    ensures ContentTitle(doc) != Some("")
  {
    if doc.pages != [] {
      BlocksTitleSpec(doc.pages[0].sortedBlocks, doc.pages[0].height);
    }
  }

  /** There is at most one title block. */
  lemma TitleBlockUnique(blocks: seq<Block>, h: real, i: int, i': int)
    requires IsTitleBlock(blocks, h, i) && IsTitleBlock(blocks, h, i')
    ensures i == i'
  {
  }

  /** Once the scan has crashed, later blocks do not matter. */
  lemma {:induction false} CrashedStays(blocks: seq<Block>, h: real, n: nat)
    requires n <= |blocks| && ScanTitle(blocks[..n], h).Crashed?
    ensures ScanTitle(blocks, h).Crashed?
    decreases |blocks| - n
  {
    if n < |blocks| {
      assert blocks[..n + 1][..n] == blocks[..n];
      CrashedStays(blocks, h, n + 1);
    } else {
      assert blocks[..n] == blocks;
    }
  }

  lemma ScanTitleStep(blocks: seq<Block>, h: real, i: nat)
    requires i < |blocks|
    ensures ScanTitle(blocks[..i + 1], h) == var st := ScanTitle(blocks[..i], h); var b := blocks[i];
      if st.Crashed? then Crashed
      else if Crashes(b, h) then Crashed
      else if Eligible(b, h) && FirstSpan(b).size > st.largest then Scan(FirstSpan(b).size, BlockText(b))
      else st
  {
    assert blocks[..i + 1][..i] == blocks[..i];
  }
}
