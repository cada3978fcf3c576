/** Per-directory maximum field widths for the long listing
    (src/print/format_info.rs). Every update raises one field to at least its
    argument. */
module Format {
  import opened Base

  /** The six widths, as one value. */
  datatype Widths = Widths(
    hardLink: nat, user: nat, group: nat, major: nat, minor: nat, fileSize: nat)

  function ZeroWidths(): Widths {
    Widths(0, 0, 0, 0, 0, 0)
  }

  /** Every field of `w` is at least the one of `v`. */
  predicate Covers(w: Widths, v: Widths) {
    w.hardLink >= v.hardLink && w.user >= v.user && w.group >= v.group
    && w.major >= v.major && w.minor >= v.minor && w.fileSize >= v.fileSize
  }

  class FormatInfo {
    var hardLinkLength: nat
    var userLength: nat
    var groupLength: nat
    var majorLength: nat
    var minorLength: nat
    var fileSizeLength: nat

    function View(): Widths
      reads this
    {
      Widths(hardLinkLength, userLength, groupLength, majorLength, minorLength, fileSizeLength)
    }

    /** `FormatInfo::new`: every width is zero. */
    constructor ()
      ensures View() == ZeroWidths()
    {
      hardLinkLength, userLength, groupLength := 0, 0, 0;
      majorLength, minorLength, fileSizeLength := 0, 0, 0;
    }

    method UpdateHardLinkLength(hardLinkLength': nat)
      modifies this
      ensures View() == old(View()).(hardLink := Max(old(hardLinkLength), hardLinkLength'))
    {
      if hardLinkLength < hardLinkLength' {
        hardLinkLength := hardLinkLength';
      }
    }

    method UpdateUserLength(userLength': nat)
      modifies this
      ensures View() == old(View()).(user := Max(old(userLength), userLength'))
    {
      if userLength < userLength' {
        userLength := userLength';
      }
    }

    method UpdateGroupLength(groupLength': nat)
      modifies this
      ensures View() == old(View()).(group := Max(old(groupLength), groupLength'))
    {
      if groupLength < groupLength' {
        groupLength := groupLength';
      }
    }

    method UpdateMajorLength(majorLength': nat)
      modifies this
      ensures View() == old(View()).(major := Max(old(majorLength), majorLength'))
    {
      if majorLength < majorLength' {
        majorLength := majorLength';
      }
    }

    method UpdateMinorLength(minorLength': nat)
      modifies this
      ensures View() == old(View()).(minor := Max(old(minorLength), minorLength'))
    {
      if minorLength < minorLength' {
        minorLength := minorLength';
      }
    }

    method UpdateFileSizeLength(fileSizeLength': nat)
      modifies this
      ensures View() == old(View()).(fileSize := Max(old(fileSizeLength), fileSizeLength'))
    {
      if fileSizeLength < fileSizeLength' {
        fileSizeLength := fileSizeLength';
      }
    }

    /** `update_file_size_lengths`: a device's major and minor widths, and the size
        column widened to hold "major, minor". */
    method UpdateFileSizeLengths(majorLength': nat, minorLength': nat)
      modifies this
      ensures View() == old(View()).(
        major := Max(old(majorLength), majorLength'),
        minor := Max(old(minorLength), minorLength'),
        fileSize := Max(old(fileSizeLength), majorLength' + minorLength' + 2))
      ensures Covers(View(), old(View()))
    {
      UpdateMajorLength(majorLength');
      UpdateMinorLength(minorLength');
      UpdateFileSizeLength(majorLength' + minorLength' + 2);
    }
  }

  /** A field after a run of updates with the values `xs`, from `start`. */
  function Accumulate(start: nat, xs: seq<nat>): nat
    decreases |xs|
  {
    if xs == [] then start else Accumulate(Max(start, xs[0]), xs[1..])
  }

  /** After a run of updates a field is the largest of its start and every value
      given: at least each of them, and equal to one of them. */
  lemma {:induction false} AccumulateIsMax(start: nat, xs: seq<nat>)
    ensures Accumulate(start, xs) >= start
    ensures forall x :: x in xs ==> Accumulate(start, xs) >= x
    ensures Accumulate(start, xs) == start || Accumulate(start, xs) in xs
    decreases |xs|
  {
    if xs != [] {
      AccumulateIsMax(Max(start, xs[0]), xs[1..]);
      assert xs == [xs[0]] + xs[1..];
    }
  }

  /** The order of the updates does not matter: two runs with the same values
      (in any order, any repetition) end at the same width. */
  lemma OrderIrrelevant(start: nat, xs: seq<nat>, ys: seq<nat>)
    requires forall x :: x in xs <==> x in ys
    ensures Accumulate(start, xs) == Accumulate(start, ys)
  {
    AccumulateIsMax(start, xs);
    AccumulateIsMax(start, ys);
  }

  /** Repeating an update does nothing more. */
  lemma UpdateIdempotent(start: nat, x: nat)
    ensures Accumulate(start, [x, x]) == Accumulate(start, [x])
  {
    assert [x, x][1..] == [x];
  }
}
