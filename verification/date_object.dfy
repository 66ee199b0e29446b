/** A mutable JavaScript Date: one time value that the setters replace,
    following the setter algorithms of section 21.4.4 of ECMA-262 in local
    time (the Calendar module holds the arithmetic). */
module DateObject {
  import opened Calendar

  class LocalDate {
    var time: int

    /** new Date(other): a copy holding the same time value. */
    constructor (t: int)
      ensures time == t
    {
      time := t;
    }

    /** getDate(): the day of the month. */
    function GetDate(): (r: int)
      reads this
      ensures 1 <= r <= 31
    {
      DateFromTime(time)
    }

    /** getMonth(): 0 for January up to 11 for December. */
    function GetMonth(): (r: int)
      reads this
      ensures 0 <= r < 12
    {
      MonthFromTime(time)
    }

    /** getDay(): 0 for Sunday up to 6 for Saturday. */
    function GetDay(): (r: int)
      reads this
      ensures 0 <= r < 7
    {
      WeekDay(time)
    }

    /** setHours(hour, min, sec, ms). */
    method SetHours(hour: int, min: int, sec: int, ms: int)
      modifies this
      ensures time == WithHours(old(time), hour, min, sec, ms)
      ensures ClockTime(hour, min, sec, ms) ==>
                Day(time) == Day(old(time)) && TimeWithinDay(time) == MakeTime(hour, min, sec, ms)
    {
      time := WithHours(time, hour, min, sec, ms);
    }

    /** setHours(hour, min): seconds and milliseconds stay. */
    method SetHoursMinutes(hour: int, min: int)
      modifies this
      ensures time == WithHoursMinutes(old(time), hour, min)
      ensures 0 <= hour < 24 && 0 <= min < 60 ==>
                Day(time) == Day(old(time)) && HourFromTime(time) == hour && MinFromTime(time) == min
    {
      time := WithHoursMinutes(time, hour, min);
    }

    /** setDate(date): the day moves by date - getDate(), the time of day stays. */
    method SetDate(date: int)
      modifies this
      ensures time == WithDate(old(time), date)
      ensures Day(time) == Day(old(time)) + date - DateFromTime(old(time))
      ensures TimeWithinDay(time) == TimeWithinDay(old(time))
    {
      time := WithDate(time, date);
    }

    /** setMonth(month, date). */
    method SetMonthDate(month: int, date: int)
      modifies this
      ensures time == WithMonth(old(time), month, date)
      ensures TimeWithinDay(time) == TimeWithinDay(old(time))
    {
      time := WithMonth(time, month, date);
    }

    /** setMonth(month): the date argument defaults to getDate(). */
    method SetMonth(month: int)
      modifies this
      ensures time == WithMonth(old(time), month, DateFromTime(old(time)))
      ensures TimeWithinDay(time) == TimeWithinDay(old(time))
    {
      time := WithMonth(time, month, DateFromTime(time));
    }
  }
}
