/** format_date: "Month D, YYYY" to the (year, month, day) triple. */
module DateFormat {
  import opened Failures
  import opened PyText
  import opened Calendar

  /** The English month names, January first. */
  const MonthNames: seq<string> := [
    "January", "February", "March", "April", "May", "June", "July",
    "August", "September", "October", "November", "December"]

  /** month_dict: the fixed twelve-entry table. */
  const MonthTable: map<string, int> := map[
    "January" := 1, "February" := 2, "March" := 3, "April" := 4,
    "May" := 5, "June" := 6, "July" := 7, "August" := 8, "September" := 9,
    "October" := 10, "November" := 11, "December" := 12]

  /** month_dict[name]: known names give their position in the year,
      anything else is the KeyError. */
  function LookupMonth(name: string): (r: Result<int>)
    ensures r.Ok? <==> name in MonthNames
    ensures r.Err? ==> r.error == UnknownMonth
    ensures r.Ok? ==> 1 <= r.value <= 12 && MonthNames[r.value - 1] == name
  {
    if name in MonthTable then Ok(MonthTable[name]) else Err(UnknownMonth)
  }

  /** format_date(date). Python evaluates the year first, then the day
      (commas removed), then the month, so the first failure in that order
      is the one reported. */
  function FormatDate(date: string): (r: Result<Date>)
    ensures var w := Split(date);
      r.Ok? <==>
        && |w| >= 3
        && ParseInt(w[2]).Some?
        && ParseInt(RemoveAll(w[1], ',')).Some?
        && w[0] in MonthNames
    ensures var w := Split(date);
      r.Ok? ==>
        && r.value.year == ParseInt(w[2]).value
        && r.value.day == ParseInt(RemoveAll(w[1], ',')).value
        && 1 <= r.value.month <= 12
        && MonthNames[r.value.month - 1] == w[0]
    ensures var w := Split(date);
      r.Err? ==>
        r.error == (if |w| < 3 then MissingToken
                    else if ParseInt(w[2]).None? || ParseInt(RemoveAll(w[1], ',')).None?
                    then NotAnInteger
                    else UnknownMonth)
  {
    var words := Split(date);
    if |words| < 3 then Err(MissingToken)
    else match ParseInt(words[2])
      case None => Err(NotAnInteger)
      case Some(year) =>
        match ParseInt(RemoveAll(words[1], ','))
        case None => Err(NotAnInteger)
        case Some(day) =>
          match LookupMonth(words[0])
          case Err(e) => Err(e)
          case Ok(month) => Ok(Date(year, month, day))
  }

  /** The way the processing-times page writes a date: "January 1, 2018". */
  function Render(d: Date): string
    requires 1 <= d.month <= 12
  {
    MonthNames[d.month - 1] + " " + IntToString(d.day) + ", " + IntToString(d.year)
  }

  /** The table gives back the position of each name. */
  lemma LookupMonthName(m: int)
    requires 1 <= m <= 12
    ensures LookupMonth(MonthNames[m - 1]) == Ok(m)
  {
    if m <= 6 {
      if m == 1 {} else if m == 2 {} else if m == 3 {} else if m == 4 {} else if m == 5 {} else {}
    } else {
      if m == 7 {} else if m == 8 {} else if m == 9 {} else if m == 10 {} else if m == 11 {} else {}
    }
  }

  lemma MonthNamesAreWords(m: int)
    requires 1 <= m <= 12
    ensures IsWord(MonthNames[m - 1]) && ',' !in MonthNames[m - 1]
  {
    LettersAreWord(MonthNames[m - 1]);
  }

  /** Three words joined by single spaces split back into the three words. */
  lemma SplitThree(a: string, b: string, c: string)
    requires IsWord(a) && IsWord(b) && IsWord(c)
    ensures Split(a + " " + b + " " + c) == [a, b, c]
  {
    var rest := b + [' '] + c;
    Regroup(a, b, c);
    SplitAroundSpace(a, ' ', rest);
    SplitTwo(b, c);
    SplitWord(a);
    assert [a] + [b, c] == [a, b, c];
  }

  lemma Regroup(a: string, b: string, c: string)
    ensures a + " " + b + " " + c == a + [' '] + (b + [' '] + c)
  {
    var lhs, rhs := a + " " + b + " " + c, a + [' '] + (b + [' '] + c);
    assert |lhs| == |rhs|;
    forall i | 0 <= i < |lhs|
      ensures lhs[i] == rhs[i]
    {
      if i < |a| {
      } else if i == |a| {
      } else if i < |a| + 1 + |b| {
        assert lhs[i] == b[i - |a| - 1] == rhs[i];
      } else if i == |a| + 1 + |b| {
      } else {
        assert lhs[i] == c[i - |a| - 2 - |b|] == rhs[i];
      }
    }
  }

  lemma CommaRegroup(a: string, b: string, c: string)
    ensures a + " " + b + ", " + c == a + " " + (b + ",") + " " + c
  {
    var lhs, rhs := a + " " + b + ", " + c, a + " " + (b + ",") + " " + c;
    assert |lhs| == |rhs|;
    forall i | 0 <= i < |lhs|
      ensures lhs[i] == rhs[i]
    {
      if i <= |a| {
      } else if i < |a| + 1 + |b| {
        assert lhs[i] == b[i - |a| - 1] == rhs[i];
      } else if i <= |a| + 2 + |b| {
      } else {
        assert lhs[i] == c[i - |a| - 3 - |b|] == rhs[i];
      }
    }
  }

  lemma SplitTwo(b: string, c: string)
    requires IsWord(b) && IsWord(c)
    ensures Split(b + [' '] + c) == [b, c]
  {
    SplitAroundSpace(b, ' ', c);
    SplitWord(b);
    SplitWord(c);
  }

  /** Removing the commas of "<digits>," leaves the digits. */
  lemma TrailingCommaRemoved(w: string)
    ensures RemoveAll(w + ",", ',') == RemoveAll(w, ',')
  {
    RemoveAllAppend(w, ",", ',');
    assert RemoveAll(",", ',') == [];
  }

  /** Round trip: format_date reads back every date written as the site writes it. */
  lemma FormatDateRender(d: Date)
    requires 1 <= d.month <= 12
    ensures FormatDate(Render(d)) == Ok(d)
  {
    var ds := IntToString(d.day);
    RenderWords(d);
    TrailingCommaRemoved(ds);
    IntToStringWord(d.day);
    RemoveAllAbsent(ds, ',');
    IntRoundTrip(d.day);
    IntRoundTrip(d.year);
    LookupMonthName(d.month);
  }

  /** The rendered date splits into the month name, the day with its comma
      and the year. */
  lemma RenderWords(d: Date)
    requires 1 <= d.month <= 12
    ensures Split(Render(d))
         == [MonthNames[d.month - 1], IntToString(d.day) + ",", IntToString(d.year)]
  {
    var name, ds, ys := MonthNames[d.month - 1], IntToString(d.day), IntToString(d.year);
    MonthNamesAreWords(d.month);
    IntToStringWord(d.day);
    IntToStringWord(d.year);
    CommaRegroup(name, ds, ys);
    assert IsWord(ds + ",");
    SplitThree(name, ds + ",", ys);
  }

  /** Words after the third are never looked at. */
  lemma ExtraWordsIgnored(date: string, rest: string)
    requires |Split(date)| >= 3
    ensures FormatDate(date + " " + rest) == FormatDate(date)
  {
    SplitAroundSpace(date, ' ', rest);
    var w := Split(date + " " + rest);
    assert w[0] == Split(date)[0] && w[1] == Split(date)[1] && w[2] == Split(date)[2];
  }

  /** The day word is read with its commas removed, so "1," and "1" give the same day. */
  lemma DayCommaIgnored(month: string, day: string, year: string)
    requires IsWord(month) && IsWord(day) && IsWord(year)
    ensures FormatDate(month + " " + day + ", " + year) == FormatDate(month + " " + day + " " + year)
  {
    assert IsWord(day + ",");
    assert month + " " + day + ", " + year == month + " " + (day + ",") + " " + year;
    SplitThree(month, day + ",", year);
    SplitThree(month, day, year);
    TrailingCommaRemoved(day);
  }

  /** The year word keeps its commas, and int() refuses them. */
  lemma YearCommaRejected(date: string)
    requires |Split(date)| >= 3 && ',' in Split(date)[2]
    ensures FormatDate(date) == Err(NotAnInteger)
  {
    if ParseInt(Split(date)[2]).Some? {
      ParseIntAlphabet(Split(date)[2], ',');
    }
  }

  lemma FormatDateExamples()
    ensures FormatDate("January 1, 2018") == Ok(Date(2018, 1, 1))
    ensures FormatDate("December 31, 2020") == Ok(Date(2020, 12, 31))
  {
    assert IntToString(1) == "1";
    assert IntToString(31) == "31";
    assert IntToString(2018) == "2018";
    assert IntToString(2020) == "2020";
    assert Render(Date(2018, 1, 1)) == "January 1, 2018";
    assert Render(Date(2020, 12, 31)) == "December 31, 2020";
    FormatDateRender(Date(2018, 1, 1));
    FormatDateRender(Date(2020, 12, 31));
  }
}
