/**
 Where one directive stands among the other lines, index by index
 (electron/services/client-config.ts:26-62).
 */
module ClientPlaces {
  import opened Options
  import opened ClientConfig

  /** Line `i` sets the key of the directive, in its section. */
  ghost predicate HitsAt(lines: seq<Line>, d: Directive, i: nat)
    requires i < |lines|
  {
    lines[i].Pair? && lines[i].key == d.key && SectionAfter(None, lines[..i]) == d.section
  }

  lemma {:induction false} FoundExactlyWhen(lines: seq<Line>, d: Directive)
    ensures Found(lines, d) <==> exists i :: 0 <= i < |lines| && HitsAt(lines, d, i)
  {
    if lines != [] {
      var n := |lines| - 1;
      FoundExactlyWhen(lines[..n], d);
      hide SectionAfter;
      forall i | 0 <= i < n ensures HitsAt(lines[..n], d, i) <==> HitsAt(lines, d, i) {
        assert lines[..n][..i] == lines[..i];
      }
      assert HitsAt(lines, d, n) <==> Hits(d, SectionAfter(None, lines[..n]), lines[n]);
      if Found(lines[..n], d) {
        var i :| 0 <= i < n && HitsAt(lines[..n], d, i);
        assert HitsAt(lines, d, i);
      }
    }
  }

  /** Line `i`, with this text, is the only one that sets the key in the section. */
  ghost predicate SetsAt(lines: seq<Line>, section: Section, key: string, text: string, i: nat) {
    && i < |lines| && lines[i] == Pair(key, text) && SectionAfter(None, lines[..i]) == section
    && forall j :: 0 <= j < |lines| && j != i && lines[j].Pair? && lines[j].key == key ==>
         SectionAfter(None, lines[..j]) != section
  }

  ghost predicate SetsTo(lines: seq<Line>, section: Section, key: string, text: string) {
    exists i :: SetsAt(lines, section, key, text, i)
  }

  ghost predicate OnlyHit(lines: seq<Line>, d: Directive, i: nat) {
    && i < |lines| && HitsAt(lines, d, i) && lines[i] == LineOf(d)
    && forall j :: 0 <= j < |lines| && HitsAt(lines, d, j) ==> j == i
  }

  lemma SelectsLast(lines: seq<Line>, d: Directive)
    requires lines != []
    ensures var n := |lines| - 1;
            Select(None, lines, Hit(d)) ==
            Select(None, lines[..n], Hit(d)) + if HitsAt(lines, d, n) then [(d.section, lines[n])] else []
  {
  }

  lemma HitsBefore(lines: seq<Line>, d: Directive, n: nat)
    requires n <= |lines|
    ensures forall i :: 0 <= i < n ==> (HitsAt(lines[..n], d, i) <==> HitsAt(lines, d, i))
  {
    hide SectionAfter;
    forall i | 0 <= i < n ensures HitsAt(lines[..n], d, i) <==> HitsAt(lines, d, i) {
      assert lines[..n][..i] == lines[..i];
    }
  }

  lemma {:induction false} EstablishedHit(lines: seq<Line>, d: Directive) returns (i: nat)
    requires Established(lines, d)
    ensures OnlyHit(lines, d, i)
  {
    hide HitsAt;
    NothingSelected(d);
    i := 0;
    if lines != [] {
      var n := |lines| - 1;
      SelectsLast(lines, d);
      HitsBefore(lines, d, n);
      if HitsAt(lines, d, n) {
        i := n;
        hide Select;
        OneOfOne(Select(None, lines[..n], Hit(d)), (d.section, lines[n]), (d.section, LineOf(d)));
        FoundExactlyWhen(lines[..n], d);
        assert forall j :: 0 <= j < n ==> !HitsAt(lines[..n], d, j);
      } else {
        hide Select;
        assert Established(lines[..n], d);
        i := EstablishedHit(lines[..n], d);
        assert forall j :: 0 <= j < n && HitsAt(lines[..n], d, j) ==> j == i;
      }
    }
  }

  lemma OneOfOne<T>(s: seq<T>, x: T, y: T)
    requires s + [x] == [y]
    ensures s == [] && x == y
  {
    assert (s + [x])[|s|] == x;
  }

  lemma NothingSelected(d: Directive)
    ensures !Established([], d)
  {
  }

  /** An established directive is set to its text. */
  lemma EstablishedIsSet(lines: seq<Line>, d: Directive)
    requires Established(lines, d)
    ensures SetsTo(lines, d.section, d.key, d.text)
  {
    var i := EstablishedHit(lines, d);
    hide SectionAfter, Established;
    forall j | 0 <= j < |lines| && j != i && lines[j].Pair? && lines[j].key == d.key
      ensures SectionAfter(None, lines[..j]) != d.section
    {
      assert !HitsAt(lines, d, j);
    }
    assert SetsAt(lines, d.section, d.key, d.text, i);
  }

  lemma {:induction false} FirstIsRewritten(lines: seq<Line>, d: Directive, j: nat)
    requires j < |lines|
    ensures Rewritten(lines, d)[j] ==
            if !HitsAt(lines, d, j) then lines[j]
            else if exists i :: 0 <= i < j && HitsAt(lines, d, i) then Blank
            else LineOf(d)
  {
    var n := |lines| - 1;
    hide SectionAfter;
    forall i | 0 <= i < n ensures HitsAt(lines[..n], d, i) <==> HitsAt(lines, d, i) {
      assert lines[..n][..i] == lines[..i];
    }
    if j < n {
      FirstIsRewritten(lines[..n], d, j);
    } else {
      FoundExactlyWhen(lines[..n], d);
      hide Found;
    }
  }

  /** `k` is the end of the first section of this name, or of the root. */
  ghost predicate Ends(lines: seq<Line>, section: Section, k: nat) {
    && k <= |lines| && (k < |lines| ==> lines[k].Header?)
    && match section
       case None => forall j :: 0 <= j < k ==> !lines[j].Header?
       case Some(name) =>
         exists h :: 0 <= h < k && lines[h].Header? && lines[h].section == name
                     && (forall j :: 0 <= j < h && lines[j].Header? ==> lines[j].section != name)
                     && (forall j :: h < j < k ==> !lines[j].Header?)
  }

  lemma PlaceEnds(lines: seq<Line>, d: Directive)
    requires !Opens(lines, d)
    ensures Ends(lines, d.section, Place(lines, d))
  {
    if d.section != None {
      var h := HeaderAt(lines, d.section);
      var rest, k := lines[h + 1..], Place(lines, d);
      assert forall j :: h < j < k ==> lines[j] == rest[j - h - 1];
      hide HeaderAt;
    }
  }

  ghost predicate HasSection(lines: seq<Line>, name: string) {
    exists j :: 0 <= j < |lines| && lines[j].Header? && lines[j].section == name
  }

  /** A key that is there is rewritten on its first line; its later lines become blank, and all other lines
      stay in their places. A key that is not there goes to the end of its section, before the next
      header. If the section is missing, it is opened at the end of the file, after a blank line. */
  lemma PlacedWhere(lines: seq<Line>, d: Directive)
    ensures var placed := Placed(lines, d);
            if exists i :: 0 <= i < |lines| && HitsAt(lines, d, i) then
              && |placed| == |lines|
              && forall j :: 0 <= j < |lines| ==>
                   placed[j] == if !HitsAt(lines, d, j) then lines[j]
                                else if exists i :: 0 <= i < j && HitsAt(lines, d, i) then Blank
                                else Pair(d.key, d.text)
            else if d.section == None || HasSection(lines, d.section.value) then
              exists k: nat :: Ends(lines, d.section, k) && placed == lines[..k] + [Pair(d.key, d.text)] + lines[k..]
            else
              placed == lines + (if lines == [] || lines[|lines| - 1] == Blank then [] else [Blank]) +
                        [Header(d.section.value, d.title), Pair(d.key, d.text)]
  {
    FoundExactlyWhen(lines, d);
    if Found(lines, d) {
      forall j | 0 <= j < |lines|
        ensures Rewritten(lines, d)[j] == if !HitsAt(lines, d, j) then lines[j]
                                          else if exists i :: 0 <= i < j && HitsAt(lines, d, i) then Blank
                                          else Pair(d.key, d.text)
      {
        FirstIsRewritten(lines, d, j);
      }
    } else {
      OpensExactlyWhen(lines, d);
      if !Opens(lines, d) {
        PlaceEnds(lines, d);
      }
    }
    hide Found, Rewritten, HitsAt, Opens, Ends, HasSection;
  }

  lemma OpensExactlyWhen(lines: seq<Line>, d: Directive)
    ensures Opens(lines, d) <==> d.section != None && !HasSection(lines, d.section.value)
  {
    hide HeaderAt;
  }
}
