/** Grouping a sequence into maximal runs of "list members".

    Three places of the system walk a sequence once and wrap every maximal run
    of consecutive elements with some property in one pair of list markers:
    the policy text grouper of content-loader.js (lines starting with `-`
    become `<ul>` items), the body loop of convert_blog.py (paragraphs whose
    style starts with `List`), and the `\s+` collapse of `clean_filename` (a
    run of whitespace becomes one `-`). `Group` is that shape, defined once, by
    runs; each of them renders the tokens with its own markup. */
module ListGrouping {

  /** One piece of grouped output: a list opens, a list closes, or one
      element of the input (inside a list or not). */
  datatype Token<T> = Open | Close | Entry(x: T)

  /** Length of the longest prefix of `xs` whose elements are all members. */
  function RunLength<T>(xs: seq<T>, member: T -> bool): (k: nat)
    ensures k <= |xs|
    ensures forall i :: 0 <= i < k ==> member(xs[i])
    ensures k < |xs| ==> !member(xs[k])
  {
    if |xs| > 0 && member(xs[0]) then 1 + RunLength(xs[1..], member) else 0
  }

  function Entries<T>(xs: seq<T>): seq<Token<T>>
  {
    seq(|xs|, i requires 0 <= i < |xs| => Entry(xs[i]))
  }

  /** The reference grouping: each maximal run of members becomes `Open`, its
      elements, `Close`; every other element stands alone. */
  function Group<T>(xs: seq<T>, member: T -> bool): seq<Token<T>>
    decreases |xs|
  {
    if |xs| == 0 then []
    else if member(xs[0]) then
      var k := RunLength(xs, member);
      [Open] + Entries(xs[..k]) + [Close] + Group(xs[k..], member)
    else [Entry(xs[0])] + Group(xs[1..], member)
  }

  /** The text of a token sequence: the images of its tokens, in order. */
  function Render<T>(ts: seq<Token<T>>, image: Token<T> -> string): string
  {
    if |ts| == 0 then "" else image(ts[0]) + Render(ts[1..], image)
  }

  /** The input elements carried by a token sequence, in order. */
  function Payload<T>(ts: seq<Token<T>>): seq<T>
  {
    if |ts| == 0 then [] else (if ts[0].Entry? then [ts[0].x] else []) + Payload(ts[1..])
  }

  /** Number of `Open` tokens (`opening`) or of `Close` tokens (otherwise). */
  function CountMarkers<T>(ts: seq<Token<T>>, opening: bool): nat
  {
    if |ts| == 0 then 0
    else (if (opening && ts[0].Open?) || (!opening && ts[0].Close?) then 1 else 0) + CountMarkers(ts[1..], opening)
  }

  /** Element `i` starts a maximal run of members. */
  predicate IsRunStart<T>(xs: seq<T>, member: T -> bool, i: nat)
    requires i < |xs|
  {
    member(xs[i]) && (i == 0 || !member(xs[i - 1]))
  }

  /** Number of maximal runs of members that start below index `n`. */
  function RunStarts<T>(xs: seq<T>, member: T -> bool, n: nat): nat
    requires n <= |xs|
  {
    if n == 0 then 0
    else RunStarts(xs, member, n - 1) + (if IsRunStart(xs, member, n - 1) then 1 else 0)
  }

  /** `ts` is well-formed list markup when a list is (`open`) or is not open
      before it: lists never nest, every `Close` ends the open list, nothing
      is left open at the end, no list is empty, a list never opens right
      after one closes (runs are maximal), and an element sits inside a list
      exactly when it is a member. */
  predicate WellFormed<T>(ts: seq<Token<T>>, member: T -> bool, open: bool)
    decreases |ts|
  {
    if |ts| == 0 then !open
    else match ts[0]
      case Open => !open && |ts| > 1 && ts[1].Entry? && WellFormed(ts[1..], member, true)
      case Close => open && (|ts| == 1 || ts[1].Entry?) && WellFormed(ts[1..], member, false)
      case Entry(x) => member(x) == open && WellFormed(ts[1..], member, open)
  }

  // ---------------------------------------------------------------------------
  // Concatenation

  lemma {:induction false} RenderAppend<T>(a: seq<Token<T>>, b: seq<Token<T>>, image: Token<T> -> string)
    ensures Render(a + b, image) == Render(a, image) + Render(b, image)
  {
    if |a| == 0 {
      assert a + b == b;
    } else {
      assert (a + b)[1..] == a[1..] + b;
      RenderAppend(a[1..], b, image);
    }
  }

  lemma RenderSnoc<T>(ts: seq<Token<T>>, t: Token<T>, image: Token<T> -> string)
    ensures Render(ts + [t], image) == Render(ts, image) + image(t)
  {
    RenderAppend(ts, [t], image);
    assert [t][1..] == [];
  }

  lemma {:induction false} PayloadAppend<T>(a: seq<Token<T>>, b: seq<Token<T>>)
    ensures Payload(a + b) == Payload(a) + Payload(b)
  {
    if |a| == 0 {
      assert a + b == b;
    } else {
      var first := if a[0].Entry? then [a[0].x] else [];
      assert (a + b)[0] == a[0];
      assert (a + b)[1..] == a[1..] + b;
      assert Payload(a + b) == first + Payload(a[1..] + b);
      PayloadAppend(a[1..], b);
      assert Payload(a) == first + Payload(a[1..]);
    }
  }

  lemma {:induction false} CountMarkersAppend<T>(a: seq<Token<T>>, b: seq<Token<T>>, opening: bool)
    ensures CountMarkers(a + b, opening) == CountMarkers(a, opening) + CountMarkers(b, opening)
  {
    if |a| == 0 {
      assert a + b == b;
    } else {
      assert (a + b)[1..] == a[1..] + b;
      CountMarkersAppend(a[1..], b, opening);
    }
  }

  lemma {:induction false} PayloadEntries<T>(xs: seq<T>)
    ensures Payload(Entries(xs)) == xs
  {
    if |xs| > 0 {
      assert Entries(xs) == [Entry(xs[0])] + Entries(xs[1..]);
      PayloadAppend([Entry(xs[0])], Entries(xs[1..]));
      PayloadEntries(xs[1..]);
    }
  }

  /** A list around `run` carries the elements of `run`, then those of what
      follows. */
  lemma PayloadRun<T>(run: seq<T>, rest: seq<Token<T>>)
    ensures Payload([Open] + Entries(run) + [Close] + rest) == run + Payload(rest)
  {
    PayloadAppend([Open] + Entries(run) + [Close], rest);
    PayloadAppend([Open] + Entries(run), [Close]);
    PayloadAppend([Open], Entries(run));
    PayloadEntries(run);
  }

  // ---------------------------------------------------------------------------
  // What grouping keeps

  /** Grouping neither drops, duplicates nor reorders elements: the entries
      of the output, read in order, are exactly the input. */
  lemma {:induction false} GroupKeepsElements<T>(xs: seq<T>, member: T -> bool)
    ensures Payload(Group(xs, member)) == xs
    decreases |xs|
  {
    if |xs| > 0 {
      if member(xs[0]) {
        var k := RunLength(xs, member);
        assert Group(xs, member) == [Open] + Entries(xs[..k]) + [Close] + Group(xs[k..], member);
        PayloadRun(xs[..k], Group(xs[k..], member));
        GroupKeepsElements(xs[k..], member);
        assert xs == xs[..k] + xs[k..];
      } else {
        assert Group(xs, member) == [Entry(xs[0])] + Group(xs[1..], member);
        PayloadAppend([Entry(xs[0])], Group(xs[1..], member));
        assert Payload([Entry(xs[0])]) == [xs[0]] by {
          assert [Entry(xs[0])][1..] == [];
        }
        GroupKeepsElements(xs[1..], member);
        assert xs == [xs[0]] + xs[1..];
      }
    }
  }

  /** The elements of a run of members followed by `Close` and well-formed
      markup are well-formed inside an open list. */
  lemma {:induction false} RunWellFormed<T>(run: seq<T>, rest: seq<Token<T>>, member: T -> bool)
    requires forall i :: 0 <= i < |run| ==> member(run[i])
    requires |rest| == 0 || rest[0].Entry?
    requires WellFormed(rest, member, false)
    ensures WellFormed(Entries(run) + [Close] + rest, member, true)
    decreases |run|
  {
    var ts := Entries(run) + [Close] + rest;
    if |run| == 0 {
      assert ts == [Close] + rest;
      assert ts[1..] == rest;
    } else {
      RunWellFormed(run[1..], rest, member);
      assert ts[0] == Entry(run[0]);
      assert ts[1..] == Entries(run[1..]) + [Close] + rest;
    }
  }

  /** Grouped output is well-formed list markup. */
  lemma {:induction false} GroupWellFormed<T>(xs: seq<T>, member: T -> bool)
    ensures WellFormed(Group(xs, member), member, false)
    decreases |xs|
  {
    if |xs| > 0 {
      var g := Group(xs, member);
      if member(xs[0]) {
        var k := RunLength(xs, member);
        var rest := Group(xs[k..], member);
        GroupWellFormed(xs[k..], member);
        if k < |xs| {
          assert xs[k..][0] == xs[k];
          assert rest == [Entry(xs[k])] + Group(xs[k..][1..], member);
        }
        RunWellFormed(xs[..k], rest, member);
        assert g == [Open] + (Entries(xs[..k]) + [Close] + rest);
        assert g[1..] == Entries(xs[..k]) + [Close] + rest;
      } else {
        GroupWellFormed(xs[1..], member);
        assert g[1..] == Group(xs[1..], member);
      }
    }
  }

  // ---------------------------------------------------------------------------
  // Extending the input by one element (what a single left-to-right pass sees)

  predicate EndsWithMember<T>(xs: seq<T>, member: T -> bool)
  {
    |xs| > 0 && member(xs[|xs| - 1])
  }

  /** The grouping `g` of some elements, updated for one more element `x`: a
      non-member is appended alone; a member that does not follow a member
      opens a list of one; a member that follows a member joins the list that
      `g` closes last. */
  function Extend<T>(g: seq<Token<T>>, x: T, member: T -> bool, afterMember: bool): seq<Token<T>>
  {
    if !member(x) then g + [Entry(x)]
    else if !afterMember || |g| == 0 then g + [Open, Entry(x), Close]
    else g[..|g| - 1] + [Entry(x), Close]
  }

  lemma ExtendAfterPrefix<T>(h: seq<Token<T>>, g: seq<Token<T>>, x: T, member: T -> bool, afterMember: bool)
    requires afterMember && member(x) ==> |g| > 0
    ensures Extend(h + g, x, member, afterMember) == h + Extend(g, x, member, afterMember)
  {
    if member(x) && afterMember {
      assert (h + g)[..|h + g| - 1] == h + g[..|g| - 1];
    }
  }

  lemma {:induction false} RunLengthSnoc<T>(xs: seq<T>, x: T, member: T -> bool)
    ensures RunLength(xs + [x], member) ==
              if RunLength(xs, member) < |xs| then RunLength(xs, member)
              else |xs| + (if member(x) then 1 else 0)
    decreases |xs|
  {
    if |xs| == 0 {
      assert xs + [x] == [x];
      assert [x][1..] == [];
    } else {
      assert (xs + [x])[0] == xs[0];
      assert (xs + [x])[1..] == xs[1..] + [x];
      RunLengthSnoc(xs[1..], x, member);
    }
  }

  /** Appending one element to the input changes the grouping only at its
      end, as `Extend` says; after a member the grouping ends with `Close`. */
  lemma {:induction false} GroupSnoc<T>(xs: seq<T>, x: T, member: T -> bool)
    ensures EndsWithMember(xs, member) ==> |Group(xs, member)| > 0 && Group(xs, member)[|Group(xs, member)| - 1].Close?
    ensures Group(xs + [x], member) == Extend(Group(xs, member), x, member, EndsWithMember(xs, member))
    decreases |xs|, 1
  {
    if |xs| == 0 {
      assert xs + [x] == [x];
      LoneEntry(x, member);
    } else {
      var k := if member(xs[0]) then RunLength(xs, member) else 1;
      var head := if member(xs[0]) then [Open] + Entries(xs[..k]) + [Close] else [Entry(xs[0])];
      assert Group(xs, member) == head + Group(xs[k..], member);
      if k < |xs| {
        GroupSnocAfterHead(xs, x, member, k, head);
      } else {
        assert xs[..k] == xs && xs[k..] == [];
        GroupSnocWholeRun(xs, x, member, head);
      }
    }
  }

  /** `GroupSnoc` when the input so far is a first group `head` of `k`
      elements followed by more input. */
  lemma {:induction false} GroupSnocAfterHead<T>(xs: seq<T>, x: T, member: T -> bool, k: nat, head: seq<Token<T>>)
    requires 0 < k < |xs|
    requires k == if member(xs[0]) then RunLength(xs, member) else 1
    requires head == if member(xs[0]) then [Open] + Entries(xs[..k]) + [Close] else [Entry(xs[0])]
    requires Group(xs, member) == head + Group(xs[k..], member)
    ensures EndsWithMember(xs, member) ==> |Group(xs, member)| > 0 && Group(xs, member)[|Group(xs, member)| - 1].Close?
    ensures Group(xs + [x], member) == Extend(Group(xs, member), x, member, EndsWithMember(xs, member))
    decreases |xs|, 0
  {
    var ys := xs + [x];
    assert ys[0] == xs[0];
    RunLengthSnoc(xs, x, member);
    assert ys[..k] == xs[..k];
    assert ys[k..] == xs[k..] + [x];
    assert Group(ys, member) == head + Group(xs[k..] + [x], member);
    GroupSnoc(xs[k..], x, member);
    assert xs[k..][|xs[k..]| - 1] == xs[|xs| - 1];
    ExtendAfterPrefix(head, Group(xs[k..], member), x, member, EndsWithMember(xs, member));
  }

  /** `GroupSnoc` when the input so far is a single group `head` (one list,
      or one lone non-member). */
  lemma {:induction false} GroupSnocWholeRun<T>(xs: seq<T>, x: T, member: T -> bool, head: seq<Token<T>>)
    requires |xs| > 0
    requires member(xs[0]) ==> RunLength(xs, member) == |xs| && head == [Open] + Entries(xs) + [Close]
    requires !member(xs[0]) ==> |xs| == 1 && head == [Entry(xs[0])]
    requires Group(xs, member) == head
    ensures EndsWithMember(xs, member) ==> |head| > 0 && head[|head| - 1].Close?
    ensures Group(xs + [x], member) == Extend(head, x, member, EndsWithMember(xs, member))
  {
    var ys := xs + [x];
    assert ys[0] == xs[0];
    RunLengthSnoc(xs, x, member);
    if member(xs[0]) {
      assert xs[|xs| - 1] == xs[RunLength(xs, member) - 1];
      if member(x) {
        ListSnoc(xs, x, member);
      } else {
        assert ys[..|xs|] == xs && ys[|xs|..] == [x];
        LoneEntry(x, member);
        assert Group(ys, member) == head + Group([x], member);
      }
    } else {
      assert ys[1..] == [x];
      LoneEntry(x, member);
      assert Group(ys, member) == head + Group([x], member);
    }
  }

  lemma LoneEntry<T>(x: T, member: T -> bool)
    ensures Group([x], member) == if member(x) then [Open, Entry(x), Close] else [Entry(x)]
  {
    assert [x][1..] == [];
    if member(x) {
      assert RunLength([x], member) == 1;
      assert [x][..1] == [x];
      assert Entries([x]) == [Entry(x)];
    }
  }

  lemma {:induction false} ListSnoc<T>(xs: seq<T>, x: T, member: T -> bool)
    requires |xs| > 0 && member(x)
    requires RunLength(xs, member) == |xs|
    ensures Group(xs, member) == [Open] + Entries(xs) + [Close]
    ensures Group(xs + [x], member) == [Open] + Entries(xs) + [Entry(x), Close]
  {
    var ys := xs + [x];
    assert xs[..|xs|] == xs && xs[|xs|..] == [];
    assert ys[0] == xs[0];
    RunLengthSnoc(xs, x, member);
    assert RunLength(ys, member) == |ys|;
    assert ys[..|ys|] == ys && ys[|ys|..] == [];
    assert Group(ys, member) == [Open] + Entries(ys) + [Close];
    assert Entries(ys) == Entries(xs) + [Entry(x)];
  }

  /** The markers a single pass emits before element `x` when a list is
      (`open`) or is not open: `Open` before a member that starts a run,
      `Close` before a non-member that ends one. */
  function Switch<T>(x: T, member: T -> bool, open: bool): seq<Token<T>>
  {
    if member(x) && !open then [Open]
    else if !member(x) && open then [Close]
    else []
  }

  /** The invariant of a single pass: the tokens it has emitted after a
      prefix are the grouping of the prefix, less the final `Close` while a
      list is still open; emitting `Switch` and the element keeps it. */
  lemma PassStep<T>(xs: seq<T>, x: T, member: T -> bool, emitted: seq<Token<T>>, open: bool)
    requires open == EndsWithMember(xs, member)
    requires Group(xs, member) == if open then emitted + [Close] else emitted
    ensures member(x) == EndsWithMember(xs + [x], member)
    ensures Group(xs + [x], member) ==
              var emitted' := emitted + Switch(x, member, open) + [Entry(x)];
              if member(x) then emitted' + [Close] else emitted'
  {
    GroupSnoc(xs, x, member);
    var g := Group(xs, member);
    if member(x) && open {
      assert g[..|g| - 1] == emitted;
    }
  }

  /** The text one element adds in a single pass: the opening marker before
      the first member of a run, the closing marker before the first other
      element after a run, then the element itself. */
  lemma SwitchRender<T>(x: T, member: T -> bool, open: bool, image: Token<T> -> string)
    ensures Render(Switch(x, member, open) + [Entry(x)], image)
         == (if member(x) && !open then image(Open)
             else if !member(x) && open then image(Close)
             else "") + image(Entry(x))
  {
    var s := Switch(x, member, open);
    RenderSnoc(s, Entry(x), image);
    if |s| == 1 {
      assert s[1..] == [];
      assert Render(s, image) == image(s[0]) + Render(s[1..], image);
    } else {
      assert Render(s, image) == "";
    }
  }

  /** One iteration of a single pass keeps its invariant: after reading `x`
      the emitted tokens still group the elements read, and the text grows
      by what `SwitchRender` says. */
  lemma PassRender<T>(xs: seq<T>, x: T, member: T -> bool, emitted: seq<Token<T>>, open: bool, image: Token<T> -> string)
    requires open == EndsWithMember(xs, member)
    requires Group(xs, member) == if open then emitted + [Close] else emitted
    ensures var next := emitted + Switch(x, member, open) + [Entry(x)];
      && member(x) == EndsWithMember(xs + [x], member)
      && Group(xs + [x], member) == (if member(x) then next + [Close] else next)
      && Render(next, image) == Render(emitted, image) +
           ((if member(x) && !open then image(Open)
             else if !member(x) && open then image(Close)
             else "") + image(Entry(x)))
  {
    PassStep(xs, x, member, emitted, open);
    var tokens := Switch(x, member, open) + [Entry(x)];
    assert emitted + Switch(x, member, open) + [Entry(x)] == emitted + tokens;
    RenderAppend(emitted, tokens, image);
    SwitchRender(x, member, open, image);
  }

  // ---------------------------------------------------------------------------
  // One list per maximal run

  lemma {:induction false} RunStartsSnoc<T>(xs: seq<T>, x: T, member: T -> bool, n: nat)
    requires n <= |xs|
    ensures RunStarts(xs + [x], member, n) == RunStarts(xs, member, n)
  {
    if n > 0 {
      RunStartsSnoc(xs, x, member, n - 1);
      assert (xs + [x])[n - 1] == xs[n - 1];
      if n > 1 {
        assert (xs + [x])[n - 2] == xs[n - 2];
      }
    }
  }

  /** The grouping opens, and closes, exactly one list per maximal run of
      consecutive members of the input. */
  lemma {:induction false} GroupCountsRuns<T>(xs: seq<T>, member: T -> bool)
    ensures CountMarkers(Group(xs, member), true) == RunStarts(xs, member, |xs|)
    ensures CountMarkers(Group(xs, member), false) == RunStarts(xs, member, |xs|)
    decreases |xs|
  {
    if |xs| > 0 {
      var init, x := xs[..|xs| - 1], xs[|xs| - 1];
      assert xs == init + [x];
      GroupCountsRuns(init, member);
      CountsSnoc(init, x, member);
      RunStartsSnoc(init, x, member, |init|);
      assert xs[|init|] == x;
      assert |init| > 0 ==> xs[|init| - 1] == init[|init| - 1];
      assert RunStarts(xs, member, |xs|) == RunStarts(xs, member, |init|) + (if IsRunStart(xs, member, |init|) then 1 else 0);
    }
  }

  /** One more element adds a list (one `Open` and one `Close`) exactly when
      it is a member that does not follow a member. */
  lemma CountsSnoc<T>(xs: seq<T>, x: T, member: T -> bool)
    ensures var d := if member(x) && !EndsWithMember(xs, member) then 1 else 0;
      && CountMarkers(Group(xs + [x], member), true) == CountMarkers(Group(xs, member), true) + d
      && CountMarkers(Group(xs + [x], member), false) == CountMarkers(Group(xs, member), false) + d
  {
    GroupSnoc(xs, x, member);
    var g := Group(xs, member);
    var open := EndsWithMember(xs, member);
    var tail := if !member(x) then [Entry(x)]
                else if !open then [Open, Entry(x), Close]
                else [Entry(x), Close];
    var front := if member(x) && open then g[..|g| - 1] else g;
    assert Group(xs + [x], member) == front + tail;
    CountMarkersAppend(front, tail, true);
    CountMarkersAppend(front, tail, false);
    TailCounts(x, member, open);
    if member(x) && open {
      assert g == front + [Close];
      CountMarkersAppend(front, [Close], true);
      CountMarkersAppend(front, [Close], false);
    }
  }

  /** The markers in what `Extend` appends for `x`. */
  lemma TailCounts<T>(x: T, member: T -> bool, open: bool)
    ensures var tail := if !member(x) then [Entry(x)]
                        else if !open then [Open, Entry(x), Close]
                        else [Entry(x), Close];
      && CountMarkers(tail, true) == (if member(x) && !open then 1 else 0)
      && CountMarkers(tail, false) == (if member(x) then 1 else 0)
  {
    var closing: seq<Token<T>> := [Close];
    assert CountMarkers(closing, true) == 0 && CountMarkers(closing, false) == 1;
    assert [Entry(x), Close] == [Entry(x)] + closing;
    CountMarkersAppend([Entry(x)], closing, true);
    CountMarkersAppend([Entry(x)], closing, false);
    assert [Open, Entry(x), Close] == [Open] + [Entry(x), Close];
    CountMarkersAppend([Open], [Entry(x), Close], true);
    CountMarkersAppend([Open], [Entry(x), Close], false);
  }

  /** Run starts depend only on which positions hold members. */
  lemma {:induction false} RunStartsAlike<T, U>(xs: seq<T>, member: T -> bool, ys: seq<U>, member': U -> bool, n: nat)
    requires n <= |xs| == |ys|
    requires forall i :: 0 <= i < |xs| ==> member(xs[i]) == member'(ys[i])
    ensures RunStarts(xs, member, n) == RunStarts(ys, member', n)
  {
    if n > 0 {
      RunStartsAlike(xs, member, ys, member', n - 1);
    }
  }

  /** Without members, grouping changes nothing: every element stands alone. */
  lemma {:induction false} GroupWithoutMembers<T>(xs: seq<T>, member: T -> bool)
    requires forall i :: 0 <= i < |xs| ==> !member(xs[i])
    ensures Group(xs, member) == Entries(xs)
    decreases |xs|
  {
    if |xs| > 0 {
      GroupWithoutMembers(xs[1..], member);
      assert Entries(xs) == [Entry(xs[0])] + Entries(xs[1..]);
    }
  }
}
