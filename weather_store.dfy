/**
  `WeatherLog` (weather_log.py lines 5-26): the observation store, a dictionary from
  `DD-MM-YYYY` text to the record entered for that day. The JSON file is abstracted
  to the mapping it decodes to: `backing` is `Some(m)` when the file holds `m` and
  `None` when there is no file.
*/
module WeatherStore {
  import opened Wrappers

  /** The record saved for a day (lines 76-80). */
  datatype Observation = Observation(temperature: real, precipitation: real, windSpeed: real)

  class WeatherLog {
    /** `self.data` */
    var data: map<string, Observation>
    /** The content of `weather_data.json`. */
    var backing: Option<map<string, Observation>>

    /** Lines 6-8: start from an empty dictionary, then load the file. */
    constructor (file: Option<map<string, Observation>>)
      ensures backing == file
      ensures data == if file.Some? then file.value else map[]
    {
      data := map[];
      backing := file;
      new;
      LoadFromJson();
    }

    /** Lines 21-26: replace the dictionary by the file's content, or by `{}` when the file is missing. */
    method LoadFromJson()
      modifies this
      ensures backing == old(backing)
      ensures data == if backing.Some? then backing.value else map[]
    {
      data := if backing.Some? then backing.value else map[];
    }

    /** Lines 17-19: rewrite the whole file with the whole dictionary. */
    method SaveToJson()
      modifies this
      ensures data == old(data)
      ensures backing == Some(data)
    {
      backing := Some(data);
    }

    /**
      Lines 14-15: `self.data.get(date, None)`, the record stored for `date`, or
      `None` when the date was never saved.
    */
    function GetDayData(date: string): (r: Option<Observation>)
      reads this
      ensures r.Some? <==> date in data
      ensures r.Some? ==> r.value == data[date]
    {
      if date in data then Some(data[date]) else None
    }

    /**
      Lines 10-12: insert or overwrite the record of `date`, then persist. Afterwards
      `date` yields exactly `obs`, every other date yields what it yielded before, at
      most the one key `date` is new, and the file holds the whole new dictionary.
    */
    method SaveDayData(date: string, obs: Observation)
      modifies this
      ensures data == old(data)[date := obs]
      ensures GetDayData(date) == Some(obs)
      ensures forall d :: d != date ==> GetDayData(d) == old(GetDayData(d))
      ensures data.Keys == old(data.Keys) + {date}
      ensures backing == Some(data)
    {
      data := data[date := obs];
      SaveToJson();
    }
  }

  /** A second save at the same date overwrites the first: the last write wins. */
  method LastWriteWins(log: WeatherLog, date: string, first: Observation, second: Observation)
    modifies log
    ensures log.GetDayData(date) == Some(second)
    ensures forall d :: d != date ==> log.GetDayData(d) == old(log.GetDayData(d))
  {
    log.SaveDayData(date, first);
    log.SaveDayData(date, second);
  }

  /** Without a file the store starts empty, so a date never saved yields `None`. */
  method FreshStoreIsEmpty(date: string) returns (log: WeatherLog)
    ensures fresh(log) && log.GetDayData(date) == None
  {
    log := new WeatherLog(None);
  }

  /** A store loaded from the file a save has written holds the same dictionary. */
  method ReloadAfterSave(log: WeatherLog, date: string, obs: Observation) returns (reloaded: WeatherLog)
    modifies log
    ensures fresh(reloaded)
    ensures reloaded.data == log.data == old(log.data)[date := obs]
    ensures reloaded.GetDayData(date) == Some(obs)
  {
    log.SaveDayData(date, obs);
    reloaded := new WeatherLog(log.backing);
  }
}
