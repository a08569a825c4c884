/** The dashboard's reading-progress panel: how many books are in each
    status, and the share of books read as a rounded percentage. */
module Progress {
  import opened Types
  import Seqs
  import Shelf

  datatype Stats = Stats(wantToRead: nat, currentlyReading: nat, read: nat, total: nat)

  /** One count per status, and the collection size. */
  function ComputeStats(books: seq<Book>): (r: Stats)
    ensures r.total == |books|
    ensures r.wantToRead + r.currentlyReading + r.read == r.total
    ensures r.read == |Shelf.Section(books, Read)|
    ensures r.wantToRead == |Shelf.Section(books, WantToRead)|
    ensures r.currentlyReading == |Shelf.Section(books, CurrentlyReading)|
  {
    Shelf.GroupSizes(books);
    Stats(|Shelf.Section(books, WantToRead)|,
          |Shelf.Section(books, CurrentlyReading)|,
          |Shelf.Section(books, Read)|,
          |books|)
  }

  lemma MulMono(a: int, b: int, c: nat)
    requires a <= b
    ensures a * c <= b * c
  {
    assert b * c == a * c + (b - a) * c;
  }

  lemma MulLtCancel(a: int, b: int, d: int)
    requires d > 0 && a * d < b * d + d
    ensures a <= b
  {
    if a > b {
      MulMono(b + 1, a, d);
    }
  }

  /** Euclidean division by a positive divisor is the unique `q` with
      `q * d <= n < q * d + d`. */
  lemma DivUnique(n: int, d: int, q: int)
    requires d > 0
    requires q * d <= n < q * d + d
    ensures n / d == q
  {
    var r := n / d;
    assert r * d <= n < r * d + d;
    MulLtCancel(q, r, d);
    MulLtCancel(r, q, d);
  }

  /** `Math.round(read / total * 100)` for `total > 0`, and 0 otherwise.
      Rounding is to the nearest whole percent with halves going up: the
      result is the `p` with `p - 1/2 <= 100 * read / total < p + 1/2`. */
  function Percentage(read: nat, total: nat): (p: nat)
    requires read <= total
    ensures p <= 100
    ensures total == 0 ==> p == 0
    ensures total > 0 ==> p * (2 * total) <= 200 * read + total < p * (2 * total) + 2 * total
  {
    if total > 0 then
      RoundedAtMostHundred(read, total);
      (200 * read + total) / (2 * total)
    else 0
  }

  lemma RoundedAtMostHundred(read: nat, total: nat)
    requires read <= total && total > 0
    ensures (200 * read + total) / (2 * total) <= 100
  {
    var p := (200 * read + total) / (2 * total);
    if p > 100 {
      MulMono(101, p, 2 * total);
    }
  }

  /** The extremes: nothing read shows 0%, everything read shows 100%. */
  lemma PercentageExtremes(total: nat)
    requires total > 0
    ensures Percentage(0, total) == 0
    ensures Percentage(total, total) == 100
  {
    DivUnique(total, 2 * total, 0);
    DivUnique(201 * total, 2 * total, 100);
  }

  /** Reading more books never lowers the percentage. */
  lemma PercentageMonotone(a: nat, b: nat, total: nat)
    requires a <= b <= total
    ensures Percentage(a, total) <= Percentage(b, total)
  {
    if total > 0 {
      var pa := Percentage(a, total);
      var pb := Percentage(b, total);
      if pb < pa {
        MulMono(pb + 1, pa, 2 * total);
      }
    }
  }

  /** What the panel shows: the counts, the percentage, and whether the
      encouragement to add books appears. */
  datatype Panel = Panel(stats: Stats, percentage: nat, encourage: bool)

  function ProgressPanel(books: seq<Book>): (p: Panel)
    ensures p.stats == ComputeStats(books)
    ensures p.percentage <= 100
    ensures p.encourage <==> books == []
    ensures books == [] ==> p.percentage == 0
  {
    var stats := ComputeStats(books);
    Panel(stats, Percentage(stats.read, stats.total), stats.total == 0)
  }

  /** A non-empty collection shows 100% exactly when the rounded share
      reaches it; in particular when every book is read. */
  lemma AllReadShowsFull(books: seq<Book>)
    requires books != []
    requires forall i :: 0 <= i < |books| ==> books[i].status == Read
    ensures ProgressPanel(books).percentage == 100
    ensures ProgressPanel(books).stats.wantToRead == 0 && ProgressPanel(books).stats.currentlyReading == 0
  {
    Seqs.FilterKeepsAll(books, Shelf.HasStatus(Read));
    PercentageExtremes(|books|);
  }

  /** With no book read the panel shows 0%. */
  lemma NoneReadShowsZero(books: seq<Book>)
    requires forall i :: 0 <= i < |books| ==> books[i].status != Read
    ensures ProgressPanel(books).percentage == 0
  {
    var section := Shelf.Section(books, Read);
    if section != [] {
      Seqs.FilterMembership(books, Shelf.HasStatus(Read), section[0]);
    }
    if books != [] {
      PercentageExtremes(|books|);
    }
  }
}
