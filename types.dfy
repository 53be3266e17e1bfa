/**
 * The records of nurse-scheduler/src/types/database.ts. Ids and timestamps
 * are uninterpreted strings; dates are calendar dates (`YYYY-MM-DD` strings
 * in the source).
 */
module Types {
  import opened Wrappers
  import opened Calendar

  type Id = string
  type Timestamp = string

  datatype ShiftType = Day | Evening | Night | Off | Split | Vacation | AnnualLeave

  /** The ordered experience scale INTERN < JUNIOR < SENIOR < CHARGE. */
  datatype ExperienceLevel = Intern | Junior | Senior | Charge

  datatype RequestStatus = Pending | Approved | Rejected

  datatype LeaveKind = Annual | Sick | Special

  datatype Ward = Ward(
    id: Id,
    name: string,
    minStaffDay: int,
    minStaffEvening: int,
    minStaffNight: int,
    maxConsecutiveNights: int,
    minRestHours: int,
    requireMixedExperience: bool,
    createdAt: Timestamp,
    updatedAt: Timestamp)

  datatype Nurse = Nurse(
    id: Id,
    wardId: Id,
    name: string,
    employeeNumber: string,
    experienceLevel: ExperienceLevel,
    hireDate: string,
    annualLeaveTotal: int,
    annualLeaveUsed: int,
    isActive: bool,
    phoneNumber: Option<string>,
    email: Option<string>,
    createdAt: Timestamp,
    updatedAt: Timestamp)

  /** `ScheduleInsert`: a schedule entry before the store gives it an id. */
  datatype ScheduleInsert = ScheduleInsert(
    wardId: Id,
    nurseId: Id,
    date: Date,
    shiftType: ShiftType,
    isLocked: bool,
    note: Option<string>)

  datatype Schedule = Schedule(
    id: Id,
    wardId: Id,
    nurseId: Id,
    date: Date,
    shiftType: ShiftType,
    isLocked: bool,
    note: Option<string>,
    createdAt: Timestamp,
    updatedAt: Timestamp)

  datatype ShiftRequest = ShiftRequest(
    id: Id,
    nurseId: Id,
    date: Date,
    requestedShift: ShiftType,
    reason: Option<string>,
    status: RequestStatus,
    createdAt: Timestamp,
    updatedAt: Timestamp)

  datatype VacationRequest = VacationRequest(
    id: Id,
    nurseId: Id,
    startDate: Date,
    endDate: Date,
    vacationType: LeaveKind,
    reason: Option<string>,
    status: RequestStatus,
    createdAt: Timestamp,
    updatedAt: Timestamp)

  /** `ScheduleGenerationConfig`. `balanceHolidays` and `balanceNightShifts`
      are carried but never read by the engine. */
  datatype GenerationConfig = GenerationConfig(
    wardId: Id,
    year: int,
    month: int,
    maxConsecutiveWorkDays: int,
    maxConsecutiveNights: int,
    minRestAfterNight: bool,
    balanceWeekends: bool,
    balanceHolidays: bool,
    balanceNightShifts: bool,
    requireMixedExperience: bool)

  /** OFF and the two leave types end a run of work days. */
  predicate IsRest(s: ShiftType)
  {
    s == Off || s == Vacation || s == AnnualLeave
  }

  /** `SENIOR_LEVELS` of schedule-generator.ts. */
  predicate IsSeniorLevel(l: ExperienceLevel)
  {
    l == Senior || l == Charge
  }
}
