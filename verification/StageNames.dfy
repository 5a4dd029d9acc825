/** Staging file names, and why no two live writers share one. */
module StageNames {
  import opened Numerals

  /** Who stages a file: an import by process id and counter, or a download, whose name also
      carries the model name, the tag and a timestamp. */
  datatype StageId =
    | Import(pid: nat, counter: nat)
    | Download(pid: nat, counter: nat, name: string, tag: string, nanos: nat)

  const DASH: string := "-"

  function FileName(id: StageId): string
  {
    match id
    case Import(pid, counter) =>
      "stage-" + (Render(pid, 16) + (DASH + Render(counter, 16)))
    case Download(pid, counter, name, tag, nanos) =>
      "pull-" + (Decimal(pid) + (DASH + Tail(name + DASH + tag, counter, nanos)))
  }

  lemma Joined(a: string, b: string, c: string)
    ensures a + (b + c) == a + b + c
  {
  }

  /** The names, written out: hexadecimal for an import, decimal for a download. */
  lemma ImportNameIs(pid: nat, counter: nat)
    ensures FileName(Import(pid, counter)) == "stage-" + Render(pid, 16) + "-" + Render(counter, 16)
  {
    var kind, p, c := "stage-", Render(pid, 16), Render(counter, 16);
    Joined(kind, p, DASH + c);
    Joined(kind + p, DASH, c);
  }

  lemma TailIs(before: string, middle: string, c: string, n: string)
    ensures before + (middle + (DASH + (c + (DASH + n)))) == before + middle + DASH + c + DASH + n
  {
    Joined(before, middle, DASH + (c + (DASH + n)));
    Joined(before + middle, DASH, c + (DASH + n));
    Joined(before + middle + DASH, c, DASH + n);
    Joined(before + middle + DASH + c, DASH, n);
  }

  lemma DownloadNameIs(pid: nat, counter: nat, name: string, tag: string, nanos: nat)
    ensures FileName(Download(pid, counter, name, tag, nanos))
         == "pull-" + Decimal(pid) + "-" + (name + "-" + tag) + "-" + Decimal(counter) + "-" + Decimal(nanos)
  {
    var kind, p, model := "pull-", Decimal(pid), name + DASH + tag;
    var tail := Tail(model, counter, nanos);
    Joined(kind, p, DASH + tail);
    Joined(kind + p, DASH, tail);
    TailIs(kind + p + DASH, model, Decimal(counter), Decimal(nanos));
  }

  /** The part of a staging name that identifies its writer. */
  function Key(id: StageId): (bool, nat, nat)
  {
    (id.Import?, id.pid, id.counter)
  }

  predicate NoDash(s: string)
  {
    '-' !in s
  }

  lemma RenderHasNoDash(n: nat, base: nat)
    requires 2 <= base <= 16
    ensures NoDash(Render(n, base))
  {
    assert '-' !in DIGITS;
    forall c | c in Render(n, base) ensures c != '-' {
      assert IsDigit(c, base);
    }
  }

  /** The text before the first dash is determined by the whole. */
  lemma SplitAtFirstDash(a: string, b: string, s: string, t: string)
    requires NoDash(a) && NoDash(b) && a + (DASH + s) == b + (DASH + t)
    ensures a == b && s == t
  {
    var whole := a + (DASH + s);
    assert whole[|a|] == '-' && whole[|b|] == '-';
    assert forall i | 0 <= i < |a| :: whole[i] == a[i] && a[i] in a;
    assert forall i | 0 <= i < |b| :: whole[i] == b[i] && b[i] in b;
    assert |a| == |b|;
    assert a == whole[..|a|] && b == whole[..|b|];
    assert s == whole[|a| + 1..] && t == whole[|b| + 1..];
  }

  /** The text after the last dash is determined by the whole. */
  lemma SplitAtLastDash(a: string, b: string, s: string, t: string)
    requires NoDash(s) && NoDash(t) && a + (DASH + s) == b + (DASH + t)
    ensures a == b && s == t
  {
    var whole := a + (DASH + s);
    assert whole[|a|] == '-' && whole[|b|] == '-';
    assert forall i | |a| < i < |whole| :: whole[i] == s[i - |a| - 1] && whole[i] in s;
    assert forall i | |b| < i < |whole| :: whole[i] == t[i - |b| - 1] && whole[i] in t;
    assert |a| == |b|;
    assert a == whole[..|a|] && b == whole[..|b|];
    assert s == whole[|a| + 1..] && t == whole[|b| + 1..];
  }

  lemma SamePrefix(p: string, a: string, b: string)
    requires p + a == p + b
    ensures a == b
  {
    assert a == (p + a)[|p|..] && b == (p + b)[|p|..];
  }

  lemma FirstLetter(id: StageId)
    ensures FileName(id) != [] && FileName(id)[0] == if id.Import? then 's' else 'p'
  {
  }

  /** A staging name determines its kind, process and counter, whatever dashes and digits the
      model name and tag contain. */
  lemma NamesApart(a: StageId, b: StageId)
    requires FileName(a) == FileName(b)
    ensures Key(a) == Key(b)
  {
    FirstLetter(a);
    FirstLetter(b);
    if a.Import? && b.Import? {
      RenderHasNoDash(a.pid, 16);
      RenderHasNoDash(b.pid, 16);
      SamePrefix("stage-", Render(a.pid, 16) + (DASH + Render(a.counter, 16)),
                 Render(b.pid, 16) + (DASH + Render(b.counter, 16)));
      SplitAtFirstDash(Render(a.pid, 16), Render(b.pid, 16), Render(a.counter, 16), Render(b.counter, 16));
      RenderInjective(a.pid, b.pid, 16);
      RenderInjective(a.counter, b.counter, 16);
    } else if a.Download? && b.Download? {
      DownloadNamesApart(a, b);
    }
  }

  /** What follows the process id in a download's staging name. */
  function Tail(middle: string, counter: nat, nanos: nat): string
  {
    middle + (DASH + (Decimal(counter) + (DASH + Decimal(nanos))))
  }

  lemma TailsApart(m: string, c: nat, n: nat, m': string, c': nat, n': nat)
    requires Tail(m, c, n) == Tail(m', c', n')
    ensures c == c'
  {
    RenderHasNoDash(c, 10);
    RenderHasNoDash(c', 10);
    RenderHasNoDash(n, 10);
    RenderHasNoDash(n', 10);
    var head, head' := m + (DASH + Decimal(c)), m' + (DASH + Decimal(c'));
    assert Tail(m, c, n) == head + (DASH + Decimal(n));
    assert Tail(m', c', n') == head' + (DASH + Decimal(n'));
    SplitAtLastDash(head, head', Decimal(n), Decimal(n'));
    SplitAtLastDash(m, m', Decimal(c), Decimal(c'));
    RenderInjective(c, c', 10);
  }

  lemma DownloadNamesApart(a: StageId, b: StageId)
    requires a.Download? && b.Download? && FileName(a) == FileName(b)
    ensures a.pid == b.pid && a.counter == b.counter
  {
    RenderHasNoDash(a.pid, 10);
    RenderHasNoDash(b.pid, 10);
    var ta := Tail(a.name + DASH + a.tag, a.counter, a.nanos);
    var tb := Tail(b.name + DASH + b.tag, b.counter, b.nanos);
    SamePrefix("pull-", Decimal(a.pid) + (DASH + ta), Decimal(b.pid) + (DASH + tb));
    SplitAtFirstDash(Decimal(a.pid), Decimal(b.pid), ta, tb);
    RenderInjective(a.pid, b.pid, 10);
    TailsApart(a.name + DASH + a.tag, a.counter, a.nanos, b.name + DASH + b.tag, b.counter, b.nanos);
  }
}
